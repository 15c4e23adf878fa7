/**
 * The in-memory analysis store: a map from id to analysis, which iterates in
 * insertion order, and a counter that issues the ids "1", "2", ... The
 * creation time is a parameter.
 */
module AnalysisStore {
  import opened Optional
  import opened Strings
  import opened Sorting
  import opened Counting
  import opened Records

  /** The "may precede" relation of `(a, b) => b.createdAt - a.createdAt`:
      newer first. */
  predicate NewerFirst(a: Analysis, b: Analysis) {
    a.createdAt >= b.createdAt
  }

  function OwnedBy(userId: string): Analysis -> bool {
    (a: Analysis) => a.data.userId == userId
  }

  /** The user's analyses, newest first, come from `vs` and belong to the user. */
  lemma OwnedNewestFirst(vs: seq<Analysis>, userId: string)
    ensures var r := Sort(Filter(vs, OwnedBy(userId)), NewerFirst);
            |r| <= |vs| && forall i :: 0 <= i < |r| ==> r[i].data.userId == userId && r[i] in vs
  {
    var mine := Filter(vs, OwnedBy(userId));
    var r := Sort(mine, NewerFirst);
    forall i | 0 <= i < |r| ensures r[i].data.userId == userId && r[i] in vs {
      SortMembers(mine, NewerFirst, r[i]);
      FilterMembers(vs, OwnedBy(userId), r[i]);
      assert OwnedBy(userId)(r[i]) == (r[i].data.userId == userId);
    }
  }

  function Without(order: seq<string>, id: string): (r: seq<string>)
    ensures forall k :: k in r <==> k in order && k != id
  {
    var r := Filter(order, (k: string) => k != id);
    assert forall k :: k in r <==> k in order && k != id by {
      forall k ensures k in r <==> k in order && k != id {
        FilterMembers(order, (k: string) => k != id, k);
      }
    }
    r
  }

  /** Every stored analysis sits under its own id, `order` lists the ids
      once each, and every id handed out is the decimal form of a number
      below `idCounter`. */
  ghost predicate Stored(analyses: map<string, Analysis>, order: seq<string>, idCounter: nat, issued: set<string>) {
    idCounter >= 1 &&
    AllDistinct(order) &&
    (forall k :: k in analyses <==> k in order) &&
    (forall k :: k in analyses ==> analyses[k].id == k && k in issued) &&
    (forall k :: k in issued ==> AllDigits(k) && ParseDecimal(k) < idCounter)
  }

  /** The analyses in the order of their ids. */
  function InOrder(analyses: map<string, Analysis>, order: seq<string>): (vs: seq<Analysis>)
    requires forall k :: k in order ==> k in analyses
    ensures |vs| == |order|
    ensures forall i :: 0 <= i < |vs| ==> vs[i] == analyses[order[i]]
  {
    seq(|order|, i requires 0 <= i < |order| => analyses[order[i]])
  }

  /** Storing an analysis under the next id keeps the store well formed; the
      id was never handed out before. */
  lemma StoredAppend(analyses: map<string, Analysis>, order: seq<string>, idCounter: nat, issued: set<string>, a: Analysis)
    requires Stored(analyses, order, idCounter, issued) && a.id == NatToString(idCounter)
    ensures a.id !in issued && a.id !in analyses && a.id !in order
    ensures Stored(analyses[a.id := a], order + [a.id], idCounter + 1, issued + {a.id})
  {
    ParseNatToString(idCounter);
    DistinctAppend(order, a.id);
  }

  class AnalysisModel {
    var analyses: map<string, Analysis>
    /** The keys of `analyses` in insertion order, the map's iteration order. */
    var order: seq<string>
    var idCounter: nat
    /** Every id `create` has handed out, including those since deleted. */
    ghost var issued: set<string>

    /** Every stored analysis sits under its own id; every id handed out is
        the decimal form of a number the counter has already passed. */
    ghost predicate Valid()
      reads this
    {
      Stored(analyses, order, idCounter, issued)
    }

    constructor()
      ensures Valid()
      ensures analyses == map[] && order == [] && idCounter == 1 && issued == {}
    {
      issued := {};
      analyses := map[];
      order := [];
      idCounter := 1;
    }

    /** `analyses.get(id)` */
    function FindById(id: string): (r: Option<Analysis>)
      reads this
      ensures r.Some? <==> id in analyses
      ensures r.Some? ==> r.value == analyses[id]
    {
      if id in analyses then Some(analyses[id]) else None
    }

    /** `analyses.values()`, in insertion order. */
    function Values(): (vs: seq<Analysis>)
      reads this
      requires Valid()
      ensures |vs| == |order|
      ensures forall i :: 0 <= i < |vs| ==> vs[i] == analyses[order[i]]
    {
      InOrder(analyses, order)
    }

    /** `create`: stores the data under the next id, with creation time `now`. */
    method Create(data: AnalysisData, now: int) returns (a: Analysis)
      requires Valid()
      modifies this
      ensures Valid()
      ensures a == Analysis(NatToString(old(idCounter)), data, now)
      ensures a.id !in old(issued) && issued == old(issued) + {a.id}
      ensures analyses == old(analyses)[a.id := a]
      ensures order == old(order) + [a.id]
      ensures idCounter == old(idCounter) + 1
      ensures FindById(a.id) == Some(a)
      ensures forall k :: k != a.id ==> FindById(k) == old(FindById(k))
    {
      var id := NatToString(idCounter);
      a := Analysis(id, data, now);
      StoredAppend(analyses, order, idCounter, issued, a);
      analyses := analyses[id := a];
      order := order + [id];
      idCounter := idCounter + 1;
      issued := issued + {id};
    }

    /** `delete`: removes the analysis, if any, under `id`. */
    method Delete(id: string)
      requires Valid()
      modifies this
      ensures Valid()
      ensures analyses == old(analyses) - {id}
      ensures order == Without(old(order), id)
      ensures idCounter == old(idCounter) && issued == old(issued)
      ensures FindById(id) == None
      ensures forall k :: k != id ==> FindById(k) == old(FindById(k))
    {
      FilterDistinct(order, (k: string) => k != id);
      analyses := analyses - {id};
      order := Without(order, id);
    }

    /** `findByUserId`: the user's analyses, newest first, analyses created at
        the same time in insertion order. */
    function FindByUserId(userId: string): (r: seq<Analysis>)
      reads this
      requires Valid()
      ensures |r| <= |Values()|
      ensures forall i :: 0 <= i < |r| ==> r[i].data.userId == userId && r[i] in Values()
    {
      OwnedNewestFirst(Values(), userId);
      Sort(Filter(Values(), OwnedBy(userId)), NewerFirst)
    }

    /** The result holds exactly the user's stored analyses, each once, newest
        first; those created at the same time keep their insertion order. */
    lemma FindByUserIdProperties(userId: string)
      requires Valid()
      ensures forall a :: a in FindByUserId(userId) <==> a.data.userId == userId && a.id in analyses && analyses[a.id] == a
      ensures AllDistinct(FindByUserId(userId))
      ensures forall i, j :: 0 <= i < j < |FindByUserId(userId)| ==>
                FindByUserId(userId)[i].createdAt >= FindByUserId(userId)[j].createdAt
      ensures forall t: int :: Filter(FindByUserId(userId), CreatedAt(t)) == Filter(Filter(Values(), OwnedBy(userId)), CreatedAt(t))
    {
      var vs := Values();
      var mine := Filter(vs, OwnedBy(userId));
      var r := FindByUserId(userId);
      forall a ensures a in r <==> a.data.userId == userId && a.id in analyses && analyses[a.id] == a {
        FindByUserIdMember(userId, a);
      }
      ValuesDistinct();
      FilterDistinct(vs, OwnedBy(userId));
      PermutationDistinct(mine, r);
      FindByUserIdOrder(userId);
    }

    lemma FindByUserIdMember(userId: string, a: Analysis)
      requires Valid()
      ensures a in FindByUserId(userId) <==> a.data.userId == userId && a.id in analyses && analyses[a.id] == a
    {
      var vs := Values();
      var mine := Filter(vs, OwnedBy(userId));
      assert FindByUserId(userId) == Sort(mine, NewerFirst);
      SortMembers(mine, NewerFirst, a);
      FilterMembers(vs, OwnedBy(userId), a);
      assert OwnedBy(userId)(a) == (a.data.userId == userId);
      StoredValue(a);
    }

    /** The values are the stored analyses. */
    lemma StoredValue(a: Analysis)
      requires Valid()
      ensures a in Values() <==> a.id in analyses && analyses[a.id] == a
    {
      var vs := Values();
      if a in vs {
        var i :| 0 <= i < |vs| && vs[i] == a;
        assert order[i] in analyses;
      }
      if a.id in analyses && analyses[a.id] == a {
        assert a.id in order;
        var k :| 0 <= k < |order| && order[k] == a.id;
        assert vs[k] == a;
      }
    }

    /** No analysis is stored twice: each sits under its own id. */
    lemma ValuesDistinct()
      requires Valid()
      ensures AllDistinct(Values())
    {
      var vs := Values();
      forall i, j | 0 <= i < j < |vs| ensures vs[i] != vs[j] {
        assert vs[i].id == order[i] && vs[j].id == order[j];
      }
    }

    lemma FindByUserIdOrder(userId: string)
      requires Valid()
      ensures forall i, j :: 0 <= i < j < |FindByUserId(userId)| ==>
                FindByUserId(userId)[i].createdAt >= FindByUserId(userId)[j].createdAt
      ensures forall t: int :: Filter(FindByUserId(userId), CreatedAt(t)) == Filter(Filter(Values(), OwnedBy(userId)), CreatedAt(t))
    {
      var mine := Filter(Values(), OwnedBy(userId));
      SortSorted(mine, NewerFirst);
      forall t: int ensures Filter(FindByUserId(userId), CreatedAt(t)) == Filter(mine, CreatedAt(t)) {
        SortStable(mine, NewerFirst, CreatedAt(t));
      }
    }
  }

  function CreatedAt(t: int): Analysis -> bool {
    (a: Analysis) => a.createdAt == t
  }
}
