/**
 * The order in which an ordered map (`std::map<int, ...>`) visits its keys:
 * ascending. `Ascending(s)` lists a finite set of keys in that order; the
 * loops of the model pick the least key not yet visited, which is the same
 * enumeration.
 */
module KeyOrder {

  /** `m` is an element of `s` no larger than any other. */
  predicate IsLeast(m: nat, s: set<nat>)
  {
    m in s && forall x :: x in s ==> m <= x
  }

  /** Every non-empty finite set of keys has a least element. */
  lemma {:induction false} LeastExists(s: set<nat>)
    requires s != {}
    ensures exists m :: IsLeast(m, s)
    decreases s
  {
    var y: nat :| y in s;
    if s == {y} {
      assert IsLeast(y, s);
    } else {
      var rest := s - {y};
      LeastExists(rest);
      var m :| IsLeast(m, rest);
      var least := if y < m then y else m;
      forall x | x in s
        ensures least <= x
      {
        assert x == y || x in rest;
      }
      assert IsLeast(least, s);
    }
  }

  /** Each element is smaller than the next. */
  predicate StrictlyIncreasing(o: seq<nat>)
  {
    forall a, b :: 0 <= a < b < |o| ==> o[a] < o[b]
  }

  /** `o` lists exactly the keys of `s`, in ascending order. */
  ghost predicate ListsAscending(o: seq<nat>, s: set<nat>)
  {
    StrictlyIncreasing(o) && forall x :: x in s <==> x in o
  }

  /** Putting the least key in front of an ascending listing of the other
      keys lists all of them in ascending order. */
  lemma ListingCons(m: nat, rest: seq<nat>, s: set<nat>)
    requires IsLeast(m, s) && ListsAscending(rest, s - {m})
    ensures ListsAscending([m] + rest, s)
  {
    var o := [m] + rest;
    forall a, b | 0 <= a < b < |o|
      ensures o[a] < o[b]
    {
      if a == 0 {
        assert o[b] == rest[b - 1];
        assert rest[b - 1] in s - {m};
      } else {
        assert o[a] == rest[a - 1] && o[b] == rest[b - 1];
      }
    }
  }

  /** Every finite set of keys has an ascending listing. */
  lemma {:induction false} ListingExists(s: set<nat>)
    ensures exists o :: ListsAscending(o, s)
    decreases s
  {
    if s == {} {
      assert ListsAscending([], s);
    } else {
      LeastExists(s);
      var m :| IsLeast(m, s);
      ListingExists(s - {m});
      var rest :| ListsAscending(rest, s - {m});
      ListingCons(m, rest, s);
    }
  }

  /** The first key of an ascending listing is the least key. */
  lemma ListingHead(o: seq<nat>, s: set<nat>)
    requires ListsAscending(o, s) && o != []
    ensures IsLeast(o[0], s)
  {
    forall x | x in s
      ensures o[0] <= x
    {
      var k :| 0 <= k < |o| && o[k] == x;
      if k > 0 {
        assert o[0] < o[k];
      }
    }
  }

  /** The rest of an ascending listing lists the other keys. */
  lemma ListingTail(o: seq<nat>, s: set<nat>)
    requires ListsAscending(o, s) && o != []
    ensures ListsAscending(o[1..], s - {o[0]})
  {
    forall x
      ensures x in s - {o[0]} <==> x in o[1..]
    {
      if x in o[1..] {
        var k :| 0 <= k < |o[1..]| && o[1..][k] == x;
        assert o[0] < o[k + 1];
      }
      if x in s && x != o[0] {
        var k :| 0 <= k < |o| && o[k] == x;
        assert o[1..][k - 1] == x;
      }
    }
  }

  /** Only the empty set has an empty listing. */
  lemma ListingEmpty(o: seq<nat>, s: set<nat>)
    requires ListsAscending(o, s)
    ensures o == [] <==> s == {}
  {
    if o != [] {
      assert o[0] in s;
    } else {
      assert forall x :: x !in s;
    }
  }

  /** A set has only one ascending listing. */
  lemma {:induction false} ListingUnique(o1: seq<nat>, o2: seq<nat>, s: set<nat>)
    requires ListsAscending(o1, s) && ListsAscending(o2, s)
    ensures o1 == o2
    decreases |o1|
  {
    if o1 == [] || o2 == [] {
      ListingEmpty(o1, s);
      ListingEmpty(o2, s);
    } else {
      ListingHead(o1, s);
      ListingHead(o2, s);
      ListingTail(o1, s);
      ListingTail(o2, s);
      ListingUnique(o1[1..], o2[1..], s - {o1[0]});
      assert o1 == [o1[0]] + o1[1..] && o2 == [o2[0]] + o2[1..];
    }
  }

  /** An ascending listing has as many entries as the set has keys. */
  lemma {:induction false} ListingLength(o: seq<nat>, s: set<nat>)
    requires ListsAscending(o, s)
    ensures |o| == |s|
    decreases |o|
  {
    if o == [] {
      ListingEmpty(o, s);
    } else {
      ListingTail(o, s);
      ListingLength(o[1..], s - {o[0]});
    }
  }

  /** The keys of `s` in ascending order. */
  ghost function Ascending(s: set<nat>): (o: seq<nat>)
    ensures ListsAscending(o, s)
    ensures |o| == |s|
  {
    ListingExists(s);
    var o :| ListsAscending(o, s);
    ListingLength(o, s);
    o
  }

  /** Any strictly increasing sequence holding exactly the keys of `s` is
      `Ascending(s)`. */
  lemma AscendingUnique(s: set<nat>, o: seq<nat>)
    requires StrictlyIncreasing(o)
    requires forall x :: x in s <==> x in o
    ensures Ascending(s) == o
  {
    ListingUnique(Ascending(s), o, s);
  }

  /** The ascending enumeration of a set starts at its least key and
      continues with the ascending enumeration of the rest. */
  lemma AscendingStep(s: set<nat>, m: nat)
    requires IsLeast(m, s)
    ensures Ascending(s) == [m] + Ascending(s - {m})
  {
    ListingCons(m, Ascending(s - {m}), s);
    ListingUnique(Ascending(s), [m] + Ascending(s - {m}), s);
  }

  /** Visiting the least remaining key advances the ascending enumeration. */
  lemma AscendingAdvance(done: seq<nat>, todo: set<nat>, id: nat, all: set<nat>)
    requires done + Ascending(todo) == Ascending(all)
    requires IsLeast(id, todo)
    ensures (done + [id]) + Ascending(todo - {id}) == Ascending(all)
  {
    AscendingStep(todo, id);
  }

  /** Nothing is left to enumerate in the empty set. */
  lemma AscendingEmpty()
    ensures Ascending({}) == []
  {
    AscendingUnique({}, []);
  }
}
