/**
  Translation trees and the two scripts that edit them: `setDeep` and the sync
  pass of `sync-translations.js`, and `cleanObject` of `clean-unused-translations.js`.
  This file says what they do to a tree; `TranslationObjects` does it in place.
 */
module TranslationTree {
  import opened Prelude
  import Strings

  /** A JSON value without arrays: a string, a number, boolean or null, or an object. */
  datatype Json =
    | Text(s: string)
    | Scalar(id: int)
    | Obj(props: map<string, Json>)

  type Props = map<string, Json>
  type Path = seq<string>

  // ----- keys and paths -----

  /** `split('.')`. */
  function Split(key: string): (path: Path)
    ensures path != []
  {
    Strings.SplitWhere(key, Strings.Is('.'))
  }

  lemma SplitInjective(k: string, l: string)
    requires Split(k) == Split(l)
    ensures k == l
  {
    Strings.JoinSplit(k, '.');
    Strings.JoinSplit(l, '.');
  }

  /** The value at a path below an object; the empty path is the object itself. */
  function Get(t: Props, path: Path): Option<Json>
    decreases |path|
  {
    if path == [] then Some(Obj(t))
    else if path[0] !in t then None
    else if |path| == 1 then Some(t[path[0]])
    else if t[path[0]].Obj? then Get(t[path[0]].props, path[1..])
    else None
  }

  predicate TextAt(t: Props, path: Path) { Get(t, path).Some? && Get(t, path).value.Text? }

  // ----- setDeep -----

  /** The target can be written: it is absent, empty, or holds just its own last segment. */
  predicate Writable(t: Props, last: string) {
    last !in t || t[last] == Text(last) || t[last] == Text("")
  }

  /** The properties below a segment on the way: those of the object there, or of a new one. */
  function Below(t: Props, segment: string): Props {
    if segment in t && t[segment].Obj? then t[segment].props else map[]
  }

  predicate Blocked(t: Props, segment: string) { segment in t && t[segment].Text? }

  /** What `setDeep` returns. */
  predicate Sets(t: Props, path: Path)
    requires path != []
    decreases |path|
  {
    if |path| == 1 then Writable(t, path[0])
    else !Blocked(t, path[0]) && Sets(Below(t, path[0]), path[1..])
  }

  /** The tree `setDeep` leaves. */
  function Set(t: Props, path: Path, v: string): Props
    requires path != []
    decreases |path|
  {
    if |path| == 1 then
      if Writable(t, path[0]) then t[path[0] := Text(v)] else t
    else if Blocked(t, path[0]) then t
    else t[path[0] := Obj(Set(Below(t, path[0]), path[1..], v))]
  }

  lemma {:induction false} SetsBelowNothing(path: Path)
    requires path != []
    ensures Sets(map[], path)
  {
    if |path| > 1 { SetsBelowNothing(path[1..]); }
  }

  /** All or nothing: when `setDeep` returns false the tree is as it was, with no object left behind. */
  lemma {:induction false} SetAllOrNothing(t: Props, path: Path, v: string)
    requires path != [] && !Sets(t, path)
    ensures Set(t, path, v) == t
    decreases |path|
  {
    if |path| > 1 && !Blocked(t, path[0]) {
      SetAllOrNothing(Below(t, path[0]), path[1..], v);
      if !(path[0] in t && t[path[0]].Obj?) { SetsBelowNothing(path[1..]); }
    }
  }

  /**
    When `setDeep` returns true: exactly if no proper prefix of the path holds a
    string, and the target is absent, empty or equal to its last segment.
   */
  lemma {:induction false} SetsIff(t: Props, path: Path)
    requires path != []
    ensures Sets(t, path) <==>
              && (forall n :: 1 <= n < |path| ==> !TextAt(t, path[..n]))
              && (Get(t, path) == None
                  || Get(t, path) == Some(Text(path[|path| - 1])) || Get(t, path) == Some(Text("")))
    decreases |path|
  {
    if |path| > 1 {
      var child, rest := Below(t, path[0]), path[1..];
      SetsIff(child, rest);
      forall n | 2 <= n < |path| ensures TextAt(t, path[..n]) == TextAt(child, rest[..n - 1]) {
        assert path[..n][1..] == rest[..n - 1];
      }
      forall n | 1 <= n < |rest| ensures TextAt(child, rest[..n]) == TextAt(t, path[..n + 1]) {
        assert path[..n + 1][1..] == rest[..n];
      }
      assert TextAt(t, path[..1]) == Blocked(t, path[0]);
    }
  }

  /**
    What a successful `setDeep` leaves at every path: the value at the target, an
    object at each proper prefix, and everywhere else what was there.
   */
  lemma {:induction false} SetGet(t: Props, path: Path, v: string, q: Path)
    requires path != [] && Sets(t, path)
    ensures q == path ==> Get(Set(t, path, v), q) == Some(Text(v))
    ensures q < path ==> Get(Set(t, path, v), q).Some? && Get(Set(t, path, v), q).value.Obj?
    ensures !(q <= path) ==> Get(Set(t, path, v), q) == Get(t, q)
    decreases |path|
  {
    if q != [] && q[0] == path[0] && |path| > 1 && |q| > 1 {
      SetGet(Below(t, path[0]), path[1..], v, q[1..]);
      assert q == [q[0]] + q[1..] && path == [path[0]] + path[1..];
    }
  }

  /** Every string leaf but the target survives. */
  lemma SetKeepsTexts(t: Props, path: Path, v: string, q: Path)
    requires path != [] && q != path && TextAt(t, q)
    ensures Get(Set(t, path, v), q) == Get(t, q)
  {
    if Sets(t, path) {
      SetGet(t, path, v, q);
      if q < path && q != [] { SetsAvoidsTexts(t, path, q); }
    } else {
      SetAllOrNothing(t, path, v);
    }
  }

  lemma SetsAvoidsTexts(t: Props, path: Path, q: Path)
    requires [] < q < path && Sets(t, path)
    ensures !TextAt(t, q)
  {
    SetsIff(t, path);
    assert path[..|q|] == q;
  }

  // ----- a sync pass -----

  /** An extracted key with the value to set for the language of the file. */
  datatype Entry = Entry(key: string, value: string)

  function ValueFor(lang: string, default: string): string {
    if lang == "en" then default else "[TODO] " + default
  }

  function Pass(t: Props, entries: seq<Entry>): Props {
    if entries == [] then t else
    var e := entries[|entries| - 1];
    Set(Pass(t, entries[..|entries| - 1]), Split(e.key), e.value)
  }

  /** How many of the entries a pass reports as added. */
  function Added(t: Props, entries: seq<Entry>): nat {
    if entries == [] then 0 else
    var init, e := entries[..|entries| - 1], entries[|entries| - 1];
    Added(t, init) + if Sets(Pass(t, init), Split(e.key)) then 1 else 0
  }

  predicate DistinctKeys(entries: seq<Entry>) {
    forall i, j :: 0 <= i < j < |entries| ==> entries[i].key != entries[j].key
  }

  /** Setting the entry again changes nothing. */
  predicate Settled(t: Props, path: Path, v: string)
    requires path != []
  {
    Set(t, path, v) == t
  }

  lemma {:induction false} SetSettles(t: Props, path: Path, v: string)
    requires path != []
    ensures Settled(Set(t, path, v), path, v)
    decreases |path|
  {
    if |path| > 1 && !Blocked(t, path[0]) {
      SetSettles(Below(t, path[0]), path[1..], v);
    }
  }

  /** An entry once settled stays settled, whatever other path is set. */
  lemma {:induction false} SettledStays(t: Props, p: Path, v: string, q: Path, w: string)
    requires p != [] && q != [] && p != q && Settled(t, p, v)
    ensures Settled(Set(t, q, w), p, v)
    decreases |p|
  {
    if p[0] == q[0] {
      if |p| > 1 && |q| > 1 {
        if !Blocked(t, p[0]) {
          assert t[p[0]] == Obj(Set(Below(t, p[0]), p[1..], v));
          assert p == [p[0]] + p[1..] && q == [q[0]] + q[1..];
          SettledStays(Below(t, p[0]), p[1..], v, q[1..], w);
        }
      }
    }
  }

  lemma {:induction false} PassSettles(t: Props, entries: seq<Entry>, i: nat)
    requires DistinctKeys(entries) && i < |entries|
    ensures Settled(Pass(t, entries), Split(entries[i].key), entries[i].value)
  {
    var n := |entries| - 1;
    var before := Pass(t, entries[..n]);
    if i == n {
      SetSettles(before, Split(entries[n].key), entries[n].value);
    } else {
      assert DistinctKeys(entries[..n]) && entries[..n][i] == entries[i];
      PassSettles(t, entries[..n], i);
      if Split(entries[i].key) == Split(entries[n].key) {
        SplitInjective(entries[i].key, entries[n].key);
      }
      SettledStays(before, Split(entries[i].key), entries[i].value, Split(entries[n].key), entries[n].value);
    }
  }

  lemma {:induction false} SettledPass(t: Props, entries: seq<Entry>)
    requires forall e :: e in entries ==> Settled(t, Split(e.key), e.value)
    ensures Pass(t, entries) == t
  {
    if entries == [] {
    } else {
      assert entries[|entries| - 1] in entries;
      SettledPass(t, entries[..|entries| - 1]);
    }
  }

  /**
    Idempotence: a second pass over the same entries changes nothing, even when one
    key is a dotted prefix of another and the first pass could not place both.
   */
  lemma PassIdempotent(t: Props, entries: seq<Entry>)
    requires DistinctKeys(entries)
    ensures Pass(Pass(t, entries), entries) == Pass(t, entries)
  {
    forall e | e in entries ensures Settled(Pass(t, entries), Split(e.key), e.value) {
      var i :| 0 <= i < |entries| && entries[i] == e;
      PassSettles(t, entries, i);
    }
    SettledPass(Pass(t, entries), entries);
  }

  /** The entry is reported as added by every pass over a settled tree. */
  predicate ReportedForever(t: Props, e: Entry) {
    Get(t, Split(e.key)) == Some(Text(e.value)) &&
    (e.value == "" || e.value == Split(e.key)[|Split(e.key)| - 1])
  }

  lemma {:induction false} SettledSetsIff(t: Props, e: Entry)
    requires Settled(t, Split(e.key), e.value)
    ensures Sets(t, Split(e.key)) <==> ReportedForever(t, e)
  {
    var path := Split(e.key);
    if Sets(t, path) {
      SetGet(t, path, e.value, path);
      SetsIff(t, path);
    }
    if ReportedForever(t, e) {
      forall n | 1 <= n < |path| ensures !TextAt(t, path[..n]) {
        TextEnds(t, path, n);
      }
      SetsIff(t, path);
    }
  }

  /** Nothing lies below a string. */
  lemma {:induction false} TextEnds(t: Props, path: Path, n: nat)
    requires 1 <= n < |path| && Get(t, path).Some?
    ensures !TextAt(t, path[..n])
    decreases |path|
  {
    if n > 1 {
      assert path[..n][1..] == path[1..][..n - 1];
      TextEnds(t[path[0]].props, path[1..], n - 1);
    }
  }

  function CountReported(t: Props, entries: seq<Entry>): nat {
    if entries == [] then 0
    else CountReported(t, entries[..|entries| - 1]) + if ReportedForever(t, entries[|entries| - 1]) then 1 else 0
  }

  /**
    What the second pass reports: not zero, as "up to date" would need, but the
    number of entries whose value is empty or repeats the last segment of the key.
   */
  lemma SecondPassReports(t: Props, entries: seq<Entry>)
    requires DistinctKeys(entries)
    ensures Added(Pass(t, entries), entries) == CountReported(Pass(t, entries), entries)
  {
    var u := Pass(t, entries);
    forall e | e in entries ensures Settled(u, Split(e.key), e.value) {
      var i :| 0 <= i < |entries| && entries[i] == e;
      PassSettles(t, entries, i);
    }
    SettledAdded(u, entries);
  }

  lemma {:induction false} SettledAdded(t: Props, entries: seq<Entry>)
    requires forall e :: e in entries ==> Settled(t, Split(e.key), e.value)
    ensures Added(t, entries) == CountReported(t, entries)
  {
    if entries == [] {
    } else {
      var init, e := entries[..|entries| - 1], entries[|entries| - 1];
      assert e in entries;
      SettledAdded(t, init);
      SettledPass(t, init);
      SettledSetsIff(t, e);
    }
  }

  // ----- the order of the keys -----

  /** A pass that reports nothing added does not write the file, and has nothing to write. */
  lemma {:induction false} NothingAddedNothingChanged(t: Props, entries: seq<Entry>)
    requires Added(t, entries) == 0
    ensures Pass(t, entries) == t
  {
    if entries == [] {
    } else {
      var init, e := entries[..|entries| - 1], entries[|entries| - 1];
      NothingAddedNothingChanged(t, init);
      SetAllOrNothing(t, Split(e.key), e.value);
    }
  }

  predicate Apart(p: Path, q: Path) { !(p <= q) && !(q <= p) }

  /** Two trees that agree on the first segment: setting the path gives the same value there. */
  lemma SetLocal(t: Props, u: Props, p: Path, v: string)
    requires p != [] && (p[0] in t <==> p[0] in u) && (p[0] in t ==> t[p[0]] == u[p[0]])
    ensures Set(t, p, v) == t <==> Set(u, p, v) == u
    ensures Set(t, p, v) != t ==>
              && p[0] in Set(t, p, v) && Set(t, p, v) == t[p[0] := Set(t, p, v)[p[0]]]
              && Set(u, p, v) == u[p[0] := Set(t, p, v)[p[0]]]
  {
    assert Below(t, p[0]) == Below(u, p[0]);
  }

  lemma SetsCommuteApart(t: Props, p: Path, v: string, q: Path, w: string)
    requires p != [] && q != [] && p[0] != q[0]
    ensures Set(Set(t, p, v), q, w) == Set(Set(t, q, w), p, v)
  {
    hide Set;
    SetLocal(t, t, p, v);
    SetLocal(t, t, q, w);
    SetLocal(t, Set(t, q, w), p, v);
    SetLocal(t, Set(t, p, v), q, w);
  }

  /** One step down. */
  lemma SetStep(t: Props, p: Path, v: string)
    requires |p| > 1
    ensures Blocked(t, p[0]) ==> Set(t, p, v) == t
    ensures !Blocked(t, p[0]) ==>
              && Set(t, p, v) == t[p[0] := Obj(Set(Below(t, p[0]), p[1..], v))]
              && Below(Set(t, p, v), p[0]) == Set(Below(t, p[0]), p[1..], v)
              && !Blocked(Set(t, p, v), p[0])
  {
  }

  lemma {:induction false} SetsCommute(t: Props, p: Path, v: string, q: Path, w: string)
    requires p != [] && q != [] && Apart(p, q)
    ensures Set(Set(t, p, v), q, w) == Set(Set(t, q, w), p, v)
    decreases |p|
  {
    hide Set, Below, Blocked;
    if p[0] != q[0] {
      SetsCommuteApart(t, p, v, q, w);
    } else {
      assert p == [p[0]] + p[1..] && q == [q[0]] + q[1..];
      SetStep(t, p, v);
      SetStep(t, q, w);
      SetStep(Set(t, p, v), q, w);
      SetStep(Set(t, q, w), p, v);
      SetsCommute(Below(t, p[0]), p[1..], v, q[1..], w);
    }
  }

  /** No key is a dotted prefix of another. */
  predicate PrefixFree(entries: seq<Entry>) {
    forall i, j :: 0 <= i < j < |entries| ==> Apart(Split(entries[i].key), Split(entries[j].key))
  }

  lemma PrefixFreeWithout(xs: seq<Entry>, i: nat)
    requires PrefixFree(xs) && i < |xs|
    ensures PrefixFree(xs[..i] + xs[i + 1..])
  {
    hide Apart, Split;
    var others := xs[..i] + xs[i + 1..];
    forall a, b | 0 <= a < b < |others| ensures Apart(Split(others[a].key), Split(others[b].key)) {
      assert others[a] == xs[if a < i then a else a + 1];
      assert others[b] == xs[if b < i then b else b + 1];
    }
  }

  /** An entry may be set last instead of at its place. */
  lemma {:induction false} PassMoveLast(t: Props, entries: seq<Entry>, i: nat)
    requires PrefixFree(entries) && i < |entries|
    ensures Pass(t, entries)
         == Set(Pass(t, entries[..i] + entries[i + 1..]), Split(entries[i].key), entries[i].value)
  {
    hide Set, Split, Apart;
    var n := |entries| - 1;
    if i == n {
      assert entries[..i] + entries[i + 1..] == entries[..n];
    } else {
      var init, others := entries[..n], entries[..i] + entries[i + 1..];
      PrefixFreeWithout(entries, n);
      assert entries[..n] + entries[n + 1..] == init && init[i] == entries[i];
      PassMoveLast(t, init, i);
      assert others[..n - 1] == init[..i] + init[i + 1..] && others[n - 1] == entries[n];
      SetsCommute(Pass(t, others[..n - 1]), Split(entries[i].key), entries[i].value,
                  Split(entries[n].key), entries[n].value);
    }
  }

  lemma RemoveAt(xs: seq<Entry>, i: nat)
    requires i < |xs|
    ensures multiset(xs) == multiset(xs[..i] + xs[i + 1..]) + multiset{xs[i]}
  {
    assert xs == xs[..i] + [xs[i]] + xs[i + 1..];
  }

  lemma RemoveBoth(xs: seq<Entry>, ys: seq<Entry>, i: nat)
    requires xs != [] && i < |ys| && ys[i] == xs[|xs| - 1] && multiset(xs) == multiset(ys)
    ensures multiset(xs[..|xs| - 1]) == multiset(ys[..i] + ys[i + 1..])
  {
    var n := |xs| - 1;
    RemoveAt(xs, n);
    RemoveAt(ys, i);
    assert xs[..n] + xs[n + 1..] == xs[..n];
    assert multiset(xs[..n]) == multiset(xs) - multiset{xs[n]} == multiset(ys[..i] + ys[i + 1..]);
  }

  /** Prefix-freeness does not depend on the order. */
  lemma PrefixFreeReordered(xs: seq<Entry>, ys: seq<Entry>)
    requires multiset(xs) == multiset(ys) && PrefixFree(xs)
    ensures PrefixFree(ys)
  {
    hide Split;
    DistinctIff(xs);
    DistinctIff(ys);
    forall i, j | 0 <= i < j < |ys| ensures Apart(Split(ys[i].key), Split(ys[j].key)) {
      assert ys[i] in multiset(ys) && ys[j] in multiset(ys);
      var k :| 0 <= k < |xs| && xs[k] == ys[i];
      var l :| 0 <= l < |xs| && xs[l] == ys[j];
      assert Apart(Split(xs[if k < l then k else l].key), Split(xs[if k < l then l else k].key));
    }
  }

  /**
    Confluence: when no key is a dotted prefix of another, a pass leaves the same
    tree whatever the order of the entries.
   */
  lemma {:induction false} PassOrderIrrelevant(t: Props, xs: seq<Entry>, ys: seq<Entry>)
    requires multiset(xs) == multiset(ys) && PrefixFree(xs)
    ensures Pass(t, xs) == Pass(t, ys)
  {
    hide Set, Split, PrefixFree;
    PrefixFreeReordered(xs, ys);
    if xs == [] {
      assert |multiset(ys)| == 0;
    } else {
      var n := |xs| - 1;
      assert xs[n] in multiset(ys);
      var i :| 0 <= i < |ys| && ys[i] == xs[n];
      var others := ys[..i] + ys[i + 1..];
      RemoveBoth(xs, ys, i);
      PrefixFreeWithout(xs, n);
      assert xs[..n] + xs[n + 1..] == xs[..n];
      PrefixFreeWithout(ys, i);
      PassMoveLast(t, ys, i);
      PassOrderIrrelevant(t, xs[..n], others);
    }
  }

  /** The first entry of a pass over an empty tree keeps its place, whatever follows. */
  lemma {:induction false} FirstStays(e: Entry, rest: seq<Entry>)
    requires forall r :: r in rest ==> r.key != e.key
    ensures Get(Pass(map[], [e] + rest), Split(e.key)) == Some(Text(e.value))
  {
    hide Set, Split, Get;
    var all := [e] + rest;
    if rest == [] {
      assert all[..0] == [];
      SetsBelowNothing(Split(e.key));
      SetGet(map[], Split(e.key), e.value, Split(e.key));
    } else {
      var init, last := rest[..|rest| - 1], rest[|rest| - 1];
      FirstStays(e, init);
      assert all[..|all| - 1] == [e] + init;
      if Split(last.key) == Split(e.key) { SplitInjective(last.key, e.key); }
      SetKeepsTexts(Pass(map[], [e] + init), Split(last.key), last.value, Split(e.key));
    }
  }

  /** The entries with the `i`-th moved to the front. */
  function MoveFirst(xs: seq<Entry>, i: nat): seq<Entry>
    requires i < |xs|
  {
    [xs[i]] + (xs[..i] + xs[i + 1..])
  }

  lemma MovedFirstStays(xs: seq<Entry>, i: nat)
    requires DistinctKeys(xs) && i < |xs|
    ensures multiset(MoveFirst(xs, i)) == multiset(xs)
    ensures Get(Pass(map[], MoveFirst(xs, i)), Split(xs[i].key)) == Some(Text(xs[i].value))
  {
    hide Pass, Get;
    RemoveAt(xs, i);
    FirstStays(xs[i], xs[..i] + xs[i + 1..]);
  }

  /**
    Whenever a key is a dotted prefix of another, the order decides which of the two
    is placed: of two orders of the same entries each starts with one of them.
   */
  lemma PrefixOrderMatters(xs: seq<Entry>, i: nat, j: nat)
    requires DistinctKeys(xs) && i < |xs| && j < |xs| && Split(xs[i].key) < Split(xs[j].key)
    ensures multiset(MoveFirst(xs, i)) == multiset(MoveFirst(xs, j)) == multiset(xs)
    ensures Pass(map[], MoveFirst(xs, i)) != Pass(map[], MoveFirst(xs, j))
  {
    hide Pass, Get, MoveFirst;
    MovedFirstStays(xs, i);
    MovedFirstStays(xs, j);
    var p, q := Split(xs[i].key), Split(xs[j].key);
    TextEnds(Pass(map[], MoveFirst(xs, j)), q, |p|);
    assert q[..|p|] == p;
  }

  /** The final tree does not depend on the order of the entries, whatever tree they meet. */
  ghost predicate OrderIrrelevant(xs: seq<Entry>) {
    forall t: Props, ys: seq<Entry> :: multiset(ys) == multiset(xs) ==> Pass(t, ys) == Pass(t, xs)
  }

  /** Exactly the sets of keys without dotted prefixes can be set in any order. */
  lemma OrderIrrelevantIff(xs: seq<Entry>)
    requires DistinctKeys(xs)
    ensures OrderIrrelevant(xs) <==> PrefixFree(xs)
  {
    hide Pass, Split;
    if PrefixFree(xs) {
      forall t: Props, ys: seq<Entry> | multiset(ys) == multiset(xs) ensures Pass(t, ys) == Pass(t, xs) {
        PassOrderIrrelevant(t, xs, ys);
      }
    }
    if OrderIrrelevant(xs) {
      forall i, j | 0 <= i < j < |xs| ensures Apart(Split(xs[i].key), Split(xs[j].key)) {
        if Split(xs[i].key) == Split(xs[j].key) { SplitInjective(xs[i].key, xs[j].key); }
        if Split(xs[i].key) < Split(xs[j].key) { PrefixOrderMatters(xs, i, j); }
        if Split(xs[j].key) < Split(xs[i].key) { PrefixOrderMatters(xs, j, i); }
      }
    }
  }
}
