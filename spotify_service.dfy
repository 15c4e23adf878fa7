/**
 * The Spotify service: the track id taken from a URL by the pattern
 * `track\/([a-zA-Z0-9]+)`, the client-credentials token request and the
 * audio-features request. Both requests are parameters of the environment;
 * every failure ends in `null`, neither operation throws.
 */
module SpotifyService {
  import opened Optional
  import opened Strings

  /** The pattern matches at `i`: "track/" followed by at least one `[a-zA-Z0-9]`. */
  predicate MatchAt(url: string, i: int) {
    0 <= i && i + 7 <= |url| && url[i..i + 6] == "track/" && IsAlnum(url[i + 6])
  }

  /** `i` is where a regular-expression search finds its match: the leftmost
      position at which the pattern matches. */
  predicate Leftmost(url: string, i: int) {
    MatchAt(url, i) && forall j :: 0 <= j < i ==> !MatchAt(url, j)
  }

  /** The greedy `[a-zA-Z0-9]+`: the longest prefix of `s` made of letters and digits. */
  function AlnumRun(s: string): (r: string)
    ensures r <= s
    ensures forall k :: 0 <= k < |r| ==> IsAlnum(r[k])
    ensures |r| == |s| || !IsAlnum(s[|r|])
  {
    if s != [] && IsAlnum(s[0]) then [s[0]] + AlnumRun(s[1..]) else []
  }

  /** The first position from `start` on where the pattern matches. */
  function FindMatch(url: string, start: nat): (r: Option<nat>)
    ensures r.Some? ==> start <= r.value && MatchAt(url, r.value) &&
                        forall j :: start <= j < r.value ==> !MatchAt(url, j)
    ensures r.None? ==> forall j :: start <= j ==> !MatchAt(url, j)
    decreases |url| - start
  {
    if start + 7 > |url| then None
    else if MatchAt(url, start) then Some(start)
    else FindMatch(url, start + 1)
  }

  /** `url.match(/track\/([a-zA-Z0-9]+)/)?.[1]` */
  function TrackId(url: string): (r: Option<string>)
    ensures r.Some? <==> exists i :: MatchAt(url, i)
    ensures r.Some? ==> exists i :: Leftmost(url, i) && r.value == AlnumRun(url[i + 6..])
  {
    var m := FindMatch(url, 0);
    if m.None? then None
    else
      assert Leftmost(url, m.value);
      Some(AlnumRun(url[m.value + 6..]))
  }

  /** The captured id is a non-empty run of letters and digits that sits right
      after the leftmost "track/" that is followed by one, and that ends at the
      end of the URL or at a character of another kind. */
  lemma TrackIdShape(url: string) returns (i: nat)
    requires TrackId(url).Some?
    ensures Leftmost(url, i)
    ensures var id := TrackId(url).value;
            id != [] && i + 6 + |id| <= |url| && url[i + 6..i + 6 + |id|] == id &&
            (i + 6 + |id| == |url| || !IsAlnum(url[i + 6 + |id|]))
  {
    i := TrackIdAt(url);
    RunInPlace(url, i, TrackId(url).value);
  }

  /** Where the captured id starts. */
  lemma TrackIdAt(url: string) returns (i: nat)
    requires TrackId(url).Some?
    ensures Leftmost(url, i) && TrackId(url) == Some(AlnumRun(url[i + 6..]))
  {
    i := FindMatch(url, 0).value;
  }

  /** The run of letters and digits after "track/" is a piece of the URL. */
  lemma RunInPlace(url: string, i: nat, id: string)
    requires i + 6 < |url| && IsAlnum(url[i + 6]) && id == AlnumRun(url[i + 6..])
    ensures id != [] && i + 6 + |id| <= |url| && url[i + 6..i + 6 + |id|] == id
    ensures i + 6 + |id| == |url| || !IsAlnum(url[i + 6 + |id|])
  {
    var rest := url[i + 6..];
    assert rest[0] == url[i + 6];
    assert url[i + 6..i + 6 + |id|] == rest[..|id|];
    if i + 6 + |id| < |url| {
      assert url[i + 6 + |id|] == rest[|id|];
    }
  }

  lemma NoMatchAt(url: string, i: nat)
    requires i < |url| && url[i] != 't'
    ensures !MatchAt(url, i)
  {
    if i + 7 <= |url| {
      assert url[i..i + 6][0] == url[i];
    }
  }

  /** The id in its usual place, ended by the query string. */
  lemma TrackIdPlainUrl()
    ensures TrackId("/track/a1?si=2") == Some("a1")
  {
    var u := "/track/a1?si=2";
    assert MatchAt(u, 1) by {
      assert u[1..7] == "track/";
    }
    assert FindMatch(u, 0) == Some(1) by {
      NoMatchAt(u, 0);
    }
    assert u[7..] == "a1?si=2";
    assert AlnumRun("?si=2") == [];
    assert AlnumRun("1?si=2") == "1" by {
      assert "1?si=2"[1..] == "?si=2";
    }
    assert AlnumRun("a1?si=2") == "a1" by {
      assert "a1?si=2"[1..] == "1?si=2";
    }
  }

  /** "track/" matches inside a longer path segment. */
  lemma TrackIdInsideSegment()
    ensures TrackId("/soundtrack/b") == Some("b")
  {
    var v := "/soundtrack/b";
    assert MatchAt(v, 6) by {
      assert v[6..12] == "track/";
    }
    assert FindMatch(v, 6) == Some(6);
    assert FindMatch(v, 5) == Some(6) by { NoMatchAt(v, 5); }
    assert FindMatch(v, 4) == Some(6) by { NoMatchAt(v, 4); }
    assert FindMatch(v, 3) == Some(6) by { NoMatchAt(v, 3); }
    assert FindMatch(v, 2) == Some(6) by { NoMatchAt(v, 2); }
    assert FindMatch(v, 1) == Some(6) by { NoMatchAt(v, 1); }
    assert FindMatch(v, 0) == Some(6) by { NoMatchAt(v, 0); }
    assert v[12..] == "b";
    assert AlnumRun("b") == "b" by {
      assert "b"[1..] == [];
    }
  }

  /** A "track/" that no letter or digit follows does not stop the search. */
  lemma TrackIdSkipsEmpty()
    ensures TrackId("track/-track/q") == Some("q")
  {
    var u := "track/-track/q";
    assert MatchAt(u, 7) by {
      assert u[7..13] == "track/";
    }
    assert FindMatch(u, 7) == Some(7);
    assert FindMatch(u, 6) == Some(7) by { NoMatchAt(u, 6); }
    assert FindMatch(u, 5) == Some(7) by { NoMatchAt(u, 5); }
    assert FindMatch(u, 4) == Some(7) by { NoMatchAt(u, 4); }
    assert FindMatch(u, 3) == Some(7) by { NoMatchAt(u, 3); }
    assert FindMatch(u, 2) == Some(7) by { NoMatchAt(u, 2); }
    assert FindMatch(u, 1) == Some(7) by { NoMatchAt(u, 1); }
    assert FindMatch(u, 0) == Some(7) by { assert u[6] == '-'; }
    assert u[13..] == "q";
    assert AlnumRun("q") == "q" by {
      assert "q"[1..] == [];
    }
  }

  /** The outside world as the service sees it. `requestToken(id, secret)` is
      the token request with the Basic credentials built from both: `None`
      when it throws, else the `access_token` field of the reply, `None` when
      absent. `requestFeatures(trackId, token)` is the audio-features request
      with the Bearer token: `None` when it throws, else the reply's data. */
  datatype SpotifyEnv = SpotifyEnv(
    clientId: Option<string>,
    clientSecret: Option<string>,
    requestToken: (string, string) -> Option<Option<string>>,
    requestFeatures: (string, string) -> Option<map<string, real>>)

  /** `getSpotifyToken` */
  function SpotifyToken(env: SpotifyEnv): (r: Option<string>)
    ensures !Truthy(env.clientId) || !Truthy(env.clientSecret) ==> r.None?
    ensures r.Some? ==> env.requestToken(env.clientId.value, env.clientSecret.value) == Some(r)
    ensures Truthy(env.clientId) && Truthy(env.clientSecret) &&
            env.requestToken(env.clientId.value, env.clientSecret.value).Some? ==>
              r == env.requestToken(env.clientId.value, env.clientSecret.value).value
  {
    if !Truthy(env.clientId) || !Truthy(env.clientSecret) then None
    else
      match env.requestToken(env.clientId.value, env.clientSecret.value)
      case None => None
      case Some(token) => token
  }

  /** A successful result: the four fields read from the reply's data, each
      `undefined` when the data does not hold it. */
  datatype AudioFeatures = AudioFeatures(
    tempo: Option<real>,
    energy: Option<real>,
    danceability: Option<real>,
    valence: Option<real>)

  function Field(data: map<string, real>, key: string): (r: Option<real>)
    ensures r.Some? <==> key in data
    ensures r.Some? ==> r.value == data[key]
  {
    if key in data then Some(data[key]) else None
  }

  /** The four audio features of the reply, each absent exactly when the
      reply lacks it. */
  function FeaturesOf(data: map<string, real>): (r: AudioFeatures)
    ensures r.tempo.Some? <==> "tempo" in data
    ensures r.energy.Some? <==> "energy" in data
    ensures r.danceability.Some? <==> "danceability" in data
    ensures r.valence.Some? <==> "valence" in data
    ensures r.tempo.Some? ==> r.tempo.value == data["tempo"]
    ensures r.energy.Some? ==> r.energy.value == data["energy"]
    ensures r.danceability.Some? ==> r.danceability.value == data["danceability"]
    ensures r.valence.Some? ==> r.valence.value == data["valence"]
  {
    AudioFeatures(Field(data, "tempo"), Field(data, "energy"), Field(data, "danceability"), Field(data, "valence"))
  }

  /** The result keeps exactly the four fields: it is determined by them, and
      each one is there exactly when the data holds it. */
  lemma FeaturesExactlyFour(d1: map<string, real>, d2: map<string, real>)
    ensures (forall k :: k in {"tempo", "energy", "danceability", "valence"} ==> Field(d1, k) == Field(d2, k))
            <==> FeaturesOf(d1) == FeaturesOf(d2)
    ensures FeaturesOf(d1).tempo.Some? <==> "tempo" in d1
    ensures FeaturesOf(d1).valence.Some? ==> FeaturesOf(d1).valence.value == d1["valence"]
  {
    if FeaturesOf(d1) == FeaturesOf(d2) {
      forall k | k in {"tempo", "energy", "danceability", "valence"} ensures Field(d1, k) == Field(d2, k) {
        assert k == "tempo" || k == "energy" || k == "danceability" || k == "valence";
      }
    }
  }

  /** `getSpotifyFeatures` */
  function SpotifyFeatures(url: string, env: SpotifyEnv): (r: Option<AudioFeatures>)
    ensures TrackId(url).None? ==> r.None?
    ensures !Truthy(SpotifyToken(env)) ==> r.None?
    ensures r.Some? <==> TrackId(url).Some? && Truthy(SpotifyToken(env)) &&
                         env.requestFeatures(TrackId(url).value, SpotifyToken(env).value).Some?
    ensures r.Some? ==> r.value == FeaturesOf(env.requestFeatures(TrackId(url).value, SpotifyToken(env).value).value)
  {
    var trackId := TrackId(url);
    if trackId.None? then None
    else
      var token := SpotifyToken(env);
      if !Truthy(token) then None
      else
        match env.requestFeatures(trackId.value, token.value)
        case None => None
        case Some(data) => Some(FeaturesOf(data))
  }

  /** Without a match nothing in the environment matters: no token is asked for. */
  lemma NoMatchNoRequest(url: string, e1: SpotifyEnv, e2: SpotifyEnv)
    requires TrackId(url).None?
    ensures SpotifyFeatures(url, e1) == SpotifyFeatures(url, e2) == None
  {
  }

  /** Without a token the features request is never made. */
  lemma NoTokenNoRequest(url: string, env: SpotifyEnv, other: (string, string) -> Option<map<string, real>>)
    requires !Truthy(SpotifyToken(env))
    ensures SpotifyFeatures(url, env) == SpotifyFeatures(url, env.(requestFeatures := other)) == None
  {
    assert SpotifyToken(env.(requestFeatures := other)) == SpotifyToken(env);
  }

  /** A missing or empty client id or secret means no features, whatever the
      services would have answered. */
  lemma MissingCredentials(url: string, env: SpotifyEnv)
    requires !Truthy(env.clientId) || !Truthy(env.clientSecret)
    ensures SpotifyToken(env).None?
    ensures SpotifyFeatures(url, env).None?
  {
  }
}
