/** Grouping keyed rows in traversal order: what folding rows into a hash map amounts to. */
module Fusion {
  import opened Common

  datatype Keyed<+R> = Keyed(key: string, row: R)

  /** The rows filed under `key`, in traversal order. */
  function Group<R>(ms: seq<Keyed<R>>, key: string): seq<R> {
    if ms == [] then []
    else (if ms[0].key == key then [ms[0].row] else []) + Group(ms[1..], key)
  }

  ghost function Keys<R>(ms: seq<Keyed<R>>): set<string> {
    set m | m in ms :: m.key
  }

  lemma {:induction false} GroupConcat<R>(a: seq<Keyed<R>>, b: seq<Keyed<R>>, key: string)
    ensures Group(a + b, key) == Group(a, key) + Group(b, key)
  {
    if a == [] {
      assert a + b == b;
    } else {
      assert (a + b)[1..] == a[1..] + b && (a + b)[0] == a[0];
      GroupConcat(a[1..], b, key);
      var head := if a[0].key == key then [a[0].row] else [];
      assert Group(a, key) == head + Group(a[1..], key);
      calc {
        Group(a + b, key);
        head + Group(a[1..] + b, key);
        head + (Group(a[1..], key) + Group(b, key));
        (head + Group(a[1..], key)) + Group(b, key);
      }
    }
  }

  lemma GroupSnoc<R>(a: seq<Keyed<R>>, m: Keyed<R>, key: string)
    ensures Group(a + [m], key) == Group(a, key) + if m.key == key then [m.row] else []
    ensures Keys(a + [m]) == Keys(a) + {m.key}
  {
    GroupConcat(a, [m], key);
    assert [m][1..] == [];
    forall k ensures k in Keys(a + [m]) <==> k in Keys(a) + {m.key} {
      if k in Keys(a) {
        var x :| x in a && x.key == k;
        assert x in a + [m];
      }
      if k == m.key { assert m in a + [m]; }
    }
  }

  /** A row changes no group but that of its key. */
  lemma OtherGroupsStay<R>(keys: set<string>, ms: seq<Keyed<R>>, m: Keyed<R>)
    ensures forall c :: c in keys && c != m.key ==> Group(ms + [m], c) == Group(ms, c)
  {
    hide Group;
    forall c | c in keys && c != m.key ensures Group(ms + [m], c) == Group(ms, c) {
      GroupSnoc(ms, m, c);
    }
  }

  lemma {:induction false} GroupNonEmpty<R>(ms: seq<Keyed<R>>, key: string)
    ensures Group(ms, key) != [] <==> key in Keys(ms)
  {
    if ms != [] {
      GroupNonEmpty(ms[1..], key);
      assert ms == [ms[0]] + ms[1..];
      if key in Keys(ms) && ms[0].key != key {
        var x :| x in ms && x.key == key;
        assert x in ms[1..];
      }
    }
  }

  /** A row in a group was mentioned under that group's key, and conversely. */
  lemma {:induction false} GroupMember<R>(ms: seq<Keyed<R>>, key: string, row: R)
    ensures row in Group(ms, key) <==> Keyed(key, row) in ms
  {
    if ms != [] {
      GroupMember(ms[1..], key, row);
      assert ms == [ms[0]] + ms[1..];
    }
  }

  /** `at` lists, in order, the places of all rows filed under `key`. */
  ghost predicate ArePlaces<R>(ms: seq<Keyed<R>>, key: string, at: seq<nat>) {
    && (forall n :: 0 <= n < |at| ==> at[n] < |ms| && ms[at[n]].key == key)
    && (forall n, m :: 0 <= n < m < |at| ==> at[n] < at[m])
    && (forall p :: 0 <= p < |ms| && ms[p].key == key ==> p in at)
  }

  lemma PlacesSnoc<R>(ms: seq<Keyed<R>>, m: Keyed<R>, key: string, at: seq<nat>)
    requires ArePlaces(ms, key, at)
    ensures ArePlaces(ms + [m], key, if m.key == key then at + [|ms|] else at)
  {
    var grown, more := ms + [m], if m.key == key then at + [|ms|] else at;
    forall p | 0 <= p < |grown| && grown[p].key == key ensures p in more {
      if p < |ms| {
        assert ms[p].key == key;
      }
    }
  }

  ghost predicate HoldsPlaces<R>(ms: seq<Keyed<R>>, rows: seq<R>, at: seq<nat>) {
    |rows| == |at| && forall n :: 0 <= n < |at| ==> at[n] < |ms| && rows[n] == ms[at[n]].row
  }

  lemma HeldSnoc<R>(ms: seq<Keyed<R>>, m: Keyed<R>, rows: seq<R>, at: seq<nat>)
    requires HoldsPlaces(ms, rows, at)
    ensures HoldsPlaces(ms + [m], rows, at) && HoldsPlaces(ms + [m], rows + [m.row], at + [|ms|])
  {
  }

  /** A group holds the rows at those places, in that order. */
  lemma {:induction false} GroupPlaces<R>(ms: seq<Keyed<R>>, key: string) returns (at: seq<nat>)
    ensures ArePlaces(ms, key, at) && HoldsPlaces(ms, Group(ms, key), at)
  {
    at := [];
    if ms != [] {
      var front, last := ms[..|ms| - 1], ms[|ms| - 1];
      assert ms == front + [last];
      hide Group, ArePlaces, HoldsPlaces;
      at := GroupPlaces(front, key);
      GroupSnoc(front, last, key);
      PlacesSnoc(front, last, key, at);
      HeldSnoc(front, last, Group(front, key), at);
      if last.key == key {
        at := at + [|front|];
      } else {
        assert Group(front, key) + [] == Group(front, key);
      }
    }
  }

  /** The place where a key is first mentioned. */
  ghost predicate IsFirstMention<R>(ms: seq<Keyed<R>>, key: string, p: nat) {
    p < |ms| && ms[p].key == key && forall q :: 0 <= q < p ==> ms[q].key != key
  }

  lemma GroupHead<R>(ms: seq<Keyed<R>>, key: string) returns (p: nat)
    requires Group(ms, key) != []
    ensures IsFirstMention(ms, key, p) && Group(ms, key)[0] == ms[p].row
  {
    var at := GroupPlaces(ms, key);
    p := at[0];
    assert forall n :: 0 <= n < |at| ==> p <= at[n];
  }

  /** The first element a test accepts. */
  function FirstWhere<T>(s: seq<T>, accept: T -> bool): Option<T> {
    if s == [] then None else if accept(s[0]) then Some(s[0]) else FirstWhere(s[1..], accept)
  }

  lemma {:induction false} FirstWhereSnoc<T>(s: seq<T>, x: T, accept: T -> bool)
    ensures FirstWhere(s + [x], accept)
         == if FirstWhere(s, accept).Some? then FirstWhere(s, accept) else if accept(x) then Some(x) else None
  {
    if s == [] {
      assert (s + [x])[1..] == [];
    } else {
      assert (s + [x])[1..] == s[1..] + [x];
      FirstWhereSnoc(s[1..], x, accept);
    }
  }

  /** The position at which `FirstWhere` stops: accepted there, refused everywhere before. */
  lemma {:induction false} FirstWhereIndex<T>(s: seq<T>, accept: T -> bool) returns (i: nat)
    ensures FirstWhere(s, accept).None? ==> i == |s|
    ensures FirstWhere(s, accept).Some? ==> i < |s| && accept(s[i]) && FirstWhere(s, accept).value == s[i]
    ensures forall j :: 0 <= j < i ==> !accept(s[j])
  {
    i := 0;
    if s != [] && !accept(s[0]) {
      i := FirstWhereIndex(s[1..], accept);
      i := i + 1;
    }
  }

  /** Distinct strings in order of first mention, the empty string left out. */
  function Distinct(names: seq<string>): seq<string> {
    if names == [] then []
    else
      var rest := Distinct(names[..|names| - 1]);
      var last := names[|names| - 1];
      if last == "" || last in rest then rest else rest + [last]
  }

  /** `a` is mentioned strictly before the first mention of `b`. */
  ghost predicate MentionedBefore(names: seq<string>, a: string, b: string) {
    exists i :: 0 <= i < |names| && names[i] == a && b !in names[..i + 1]
  }

  lemma {:induction false} DistinctSpec(names: seq<string>)
    ensures forall x :: x in Distinct(names) <==> x in names && x != ""
    ensures forall i, j :: 0 <= i < j < |Distinct(names)| ==> Distinct(names)[i] != Distinct(names)[j]
    ensures forall i, j :: 0 <= i < j < |Distinct(names)| ==>
              MentionedBefore(names, Distinct(names)[i], Distinct(names)[j])
  {
    if names != [] {
      var front, last := names[..|names| - 1], names[|names| - 1];
      DistinctSpec(front);
      assert names == front + [last];
      var d, d0 := Distinct(names), Distinct(front);
      forall i, j | 0 <= i < j < |d| ensures MentionedBefore(names, d[i], d[j]) {
        if j < |d0| {
          assert MentionedBefore(front, d0[i], d0[j]);
          var p :| 0 <= p < |front| && front[p] == d0[i] && d0[j] !in front[..p + 1];
          assert names[..p + 1] == front[..p + 1];
        } else {
          assert d0[i] in front && last !in front;
          var p :| 0 <= p < |front| && front[p] == d0[i];
          assert forall q :: 0 <= q < p + 1 ==> names[..p + 1][q] == front[q];
        }
      }
    }
  }

  /** The keys in order of first mention. */
  function FirstSeen<R>(ms: seq<Keyed<R>>): seq<string> {
    if ms == [] then []
    else
      var rest := FirstSeen(ms[..|ms| - 1]);
      var last := ms[|ms| - 1].key;
      if last in rest then rest else rest + [last]
  }

  lemma FirstSeenSnoc<R>(ms: seq<Keyed<R>>, m: Keyed<R>)
    ensures FirstSeen(ms + [m]) == if m.key in FirstSeen(ms) then FirstSeen(ms) else FirstSeen(ms) + [m.key]
  {
    var grown := ms + [m];
    assert grown[..|grown| - 1] == ms && grown[|grown| - 1] == m;
  }

  lemma {:induction false} FirstSeenMembers<R>(ms: seq<Keyed<R>>)
    ensures forall c :: c in FirstSeen(ms) <==> c in Keys(ms)
    ensures forall i, j :: 0 <= i < j < |FirstSeen(ms)| ==> FirstSeen(ms)[i] != FirstSeen(ms)[j]
  {
    if ms != [] {
      var front, last := ms[..|ms| - 1], ms[|ms| - 1];
      FirstSeenMembers(front);
      assert ms == front + [last];
      GroupSnoc(front, last, last.key);
    }
  }

  /** Of two listed keys, the one listed first is mentioned before the other is mentioned at all. */
  lemma {:induction false} FirstSeenOrder<R>(ms: seq<Keyed<R>>, i: nat, j: nat) returns (p: nat)
    requires i < j < |FirstSeen(ms)|
    ensures p < |ms| && ms[p].key == FirstSeen(ms)[i] && FirstSeen(ms)[j] !in Keys(ms[..p + 1])
  {
    var front, last := ms[..|ms| - 1], ms[|ms| - 1];
    var d := FirstSeen(front);
    if j < |d| {
      p := FirstSeenOrder(front, i, j);
      assert ms[..p + 1] == front[..p + 1];
    } else {
      FirstSeenMembers(front);
      assert d[i] in Keys(front);
      var x :| x in front && x.key == d[i];
      p :| 0 <= p < |front| && front[p] == x;
      assert ms[..p + 1] == front[..p + 1];
      assert forall y :: y in front[..p + 1] ==> y in front;
    }
  }

  /** The list of first-seen keys follows the places where they are first mentioned. */
  lemma FirstMentionOrder<R>(ms: seq<Keyed<R>>, i: nat, j: nat, p: nat, q: nat)
    requires i < j < |FirstSeen(ms)|
    requires IsFirstMention(ms, FirstSeen(ms)[i], p) && IsFirstMention(ms, FirstSeen(ms)[j], q)
    ensures p < q
  {
    var r := FirstSeenOrder(ms, i, j);
    forall x | 0 <= x < r + 1 ensures ms[x].key in Keys(ms[..r + 1]) {
      assert ms[..r + 1][x] in ms[..r + 1];
    }
  }

  /** `values` holds the table's values, each once, in the order in which `order` names its keys. */
  ghost predicate IsListing<E>(table: map<string, E>, order: seq<string>, values: seq<E>) {
    && |values| == |order|
    && (forall i :: 0 <= i < |order| ==> order[i] in table && values[i] == table[order[i]])
    && (forall i, j :: 0 <= i < j < |order| ==> order[i] != order[j])
    && forall c :: c in table <==> c in order
  }

  /** `HashMap::into_values`: every value once, in an order nothing is known about. */
  method IntoValues<E>(table: map<string, E>) returns (values: seq<E>)
    ensures |values| == |table|
    ensures exists order :: IsListing(table, order, values)
  {
    values := [];
    ghost var order: seq<string> := [];
    var rest := table.Keys;
    while rest != {}
      invariant rest <= table.Keys
      invariant |values| == |order| && |order| + |rest| == |table|
      invariant forall i :: 0 <= i < |order| ==> order[i] in table && order[i] !in rest && values[i] == table[order[i]]
      invariant forall i, j :: 0 <= i < j < |order| ==> order[i] != order[j]
      invariant forall c :: c in table <==> c in order || c in rest
      decreases rest
    {
      var c :| c in rest;
      values, rest := values + [table[c]], rest - {c};
      order := order + [c];
    }
    assert IsListing(table, order, values);
  }
}
