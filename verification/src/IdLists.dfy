/** Identifiers, and lists that hold each member of a set exactly once: the form in which the
    linked lists of the event loop and of the resolver are modelled. */
module IdLists {
  datatype Option<T> = None | Some(value: T)

  type Id = nat

  ghost predicate Distinct(s: seq<Id>) {
    forall i, j :: 0 <= i < j < |s| ==> s[i] != s[j]
  }

  ghost function InList(s: seq<Id>): set<Id> {
    set x | x in s
  }

  /** The list holds each member of the set exactly once, and nothing else. */
  ghost predicate Lists(s: seq<Id>, S: set<Id>) {
    Distinct(s) && forall x :: x in s <==> x in S
  }

  /** TAILQ_REMOVE */
  function Drop(s: seq<Id>, x: Id): seq<Id> {
    if s == [] then [] else if s[0] == x then s[1..] else [s[0]] + Drop(s[1..], x)
  }

  lemma {:induction false} DropMembers(s: seq<Id>, x: Id)
    requires Distinct(s)
    ensures forall y :: y in Drop(s, x) <==> y in s && y != x
    ensures Distinct(Drop(s, x))
  {
    if s != [] {
      DropMembers(s[1..], x);
      assert s == [s[0]] + s[1..];
      assert s[0] !in Drop(s[1..], x);
    }
  }

  lemma DropLists(s: seq<Id>, S: set<Id>, x: Id)
    requires Lists(s, S)
    ensures Lists(Drop(s, x), S - {x})
  {
    DropMembers(s, x);
  }

  lemma SnocLists(s: seq<Id>, S: set<Id>, x: Id)
    requires Lists(s, S) && x !in S
    ensures Lists(s + [x], S + {x})
  {
  }

  /** A list has as many elements as its set. */
  lemma {:induction false} ListsLength(s: seq<Id>, S: set<Id>)
    requires Lists(s, S)
    ensures |s| == |S|
  {
    if s == [] {
      assert S == {};
    } else {
      assert s[0] in S;
      assert Lists(s[1..], S - {s[0]}) by {
        assert s == [s[0]] + s[1..];
      }
      ListsLength(s[1..], S - {s[0]});
    }
  }
}
