/**
 * Flattening of a decoded JSON or YAML document (parser.go, `flattenJSON` and
 * `flattenYAML`). Every scalar leaf of the tree is written into a map supplied
 * by the caller, under a key spelled from the route to it: a map key `k`
 * contributes `k.` and a sequence index `i` contributes `[i].`, and the final
 * `.` is cut off. A list under `xs` therefore yields `xs.[0]`, `xs.[1]`, ...
 *
 * The two Go functions differ only in the Go types they accept (YAML may
 * produce maps whose keys are not strings; they are spelled with `%v`), so
 * one `Flatten` models both, over a tree whose map keys are already spelled.
 */
module Flattener {
  import opened Text
  import opened Seqs

  /** A decoded document: a map, a sequence, or a scalar spelled as `fmt` prints it. */
  datatype Value = Map(entries: seq<Entry>) | Seq(items: seq<Value>) | Scalar(text: string)

  /** One key/value pair of a map, in the order the map is iterated. */
  datatype Entry = Entry(key: string, value: Value)

  /** One step of a route from the root of a tree: into a map key or a sequence index. */
  datatype Step = Key(name: string) | Index(i: nat)

  /** A scalar leaf of a tree together with the route that reaches it. */
  datatype Leaf = Leaf(path: seq<Step>, text: string)

  /** The text one step adds to the key: `k.` for a map key, `[i].` for an index. */
  function Segment(s: Step): (r: string)
    ensures r != [] && r[|r| - 1] == '.'
  {
    match s
    case Key(k) => k + "."
    case Index(i) => "[" + NatToString(i) + "]."
  }

  /** The text a whole route adds to the key. */
  function Render(path: seq<Step>): string
  {
    if path == [] then "" else Segment(path[0]) + Render(path[1..])
  }

  /** The flattened key of a route below `prefix`: the spelled route without its final `.`. */
  function KeyOf(prefix: string, path: seq<Step>): string
  {
    var full := prefix + Render(path);
    if full == [] then [] else full[..|full| - 1]
  }

  /** Puts `s` in front of the route of every leaf. */
  function Under(s: Step, ls: seq<Leaf>): (r: seq<Leaf>)
    ensures |r| == |ls|
    ensures forall i :: 0 <= i < |ls| ==> r[i] == Leaf([s] + ls[i].path, ls[i].text)
  {
    seq(|ls|, i requires 0 <= i < |ls| => Leaf([s] + ls[i].path, ls[i].text))
  }

  /** The scalar leaves of `v`, in the order the flattening visits them. */
  function Leaves(v: Value): seq<Leaf>
    decreases v
  {
    match v
    case Scalar(t) => [Leaf([], t)]
    case Map(es) => EntryLeaves(es)
    case Seq(items) => ItemLeaves(items)
  }

  /** The leaves below the entries of a map, entry after entry. */
  function EntryLeaves(es: seq<Entry>): seq<Leaf>
    decreases es
  {
    if es == [] then []
    else
      var e := es[|es| - 1];
      EntryLeaves(es[..|es| - 1]) + Under(Key(e.key), Leaves(e.value))
  }

  /** The leaves below the items of a sequence, item after item, each under its index. */
  function ItemLeaves(items: seq<Value>): seq<Leaf>
    decreases items
  {
    if items == [] then []
    else
      var n := |items| - 1;
      ItemLeaves(items[..n]) + Under(Index(n), Leaves(items[n]))
  }

  /** `v` has the scalar `t` at the end of the route `path`. */
  ghost predicate Reaches(v: Value, path: seq<Step>, t: string)
    decreases path
  {
    if path == [] then v == Scalar(t)
    else match path[0]
      case Key(k) =>
        v.Map? && exists j :: 0 <= j < |v.entries| && v.entries[j].key == k && Reaches(v.entries[j].value, path[1..], t)
      case Index(i) =>
        v.Seq? && i < |v.items| && Reaches(v.items[i], path[1..], t)
  }

  /** Writes the leaves, one after the other, into `m` under their keys below `prefix`. */
  function Store(m: map<string, string>, prefix: string, ls: seq<Leaf>): map<string, string>
    decreases |ls|
  {
    if ls == [] then m else Store(m[KeyOf(prefix, ls[0].path) := ls[0].text], prefix, ls[1..])
  }

  /** The keys the leaves are written under. */
  ghost function KeySet(prefix: string, ls: seq<Leaf>): set<string>
  {
    set l | l in ls :: KeyOf(prefix, l.path)
  }

  /** The map a document flattens into, starting from an empty map. */
  function Flattened(v: Value): map<string, string>
  {
    Store(map[], "", Leaves(v))
  }

  /** The map the flattening writes into; the caller creates it and keeps it. */
  class FlatMap {
    var entries: map<string, string>

    constructor ()
      ensures entries == map[]
    {
      entries := map[];
    }
  }

  /**
   * `flattenJSON(prefix, v, out)` and `flattenYAML(prefix, v, out)`: writes
   * every leaf of `v` into `out` and touches nothing else. A scalar needs a
   * non-empty prefix, because the source cuts the last character off it.
   */
  method Flatten(prefix: string, v: Value, out: FlatMap)
    requires v.Scalar? ==> prefix != ""
    modifies out
    ensures out.entries == Store(old(out.entries), prefix, Leaves(v))
    decreases v
  {
    match v {
      case Map(es) =>
        ghost var m0 := out.entries;
        var i := 0;
        while i < |es|
          invariant 0 <= i <= |es|
          invariant out.entries == Store(m0, prefix, EntryLeaves(es[..i]))
        {
          var e := es[i];
          assert e.value < e < v;
          Flatten(prefix + e.key + ".", e.value, out);
          EntryStep(m0, prefix, es, i);
          i := i + 1;
        }
        assert es[..|es|] == es;
      case Seq(items) =>
        ghost var m0 := out.entries;
        var i := 0;
        while i < |items|
          invariant 0 <= i <= |items|
          invariant out.entries == Store(m0, prefix, ItemLeaves(items[..i]))
        {
          var item := items[i];
          Flatten(prefix + "[" + NatToString(i) + "].", item, out);
          ItemStep(m0, prefix, items, i);
          i := i + 1;
        }
        assert items[..|items|] == items;
      case Scalar(t) =>
        assert prefix + Render([]) == prefix;
        out.entries := out.entries[prefix[..|prefix| - 1] := t];
    }
  }

  /** Storing two runs of leaves is storing the first, then the second. */
  lemma {:induction false} StoreAppend(m: map<string, string>, prefix: string, a: seq<Leaf>, b: seq<Leaf>)
    ensures Store(m, prefix, a + b) == Store(Store(m, prefix, a), prefix, b)
    decreases |a|
  {
    if a == [] {
      assert a + b == b;
    } else {
      assert (a + b)[0] == a[0] && (a + b)[1..] == a[1..] + b;
      StoreAppend(m[KeyOf(prefix, a[0].path) := a[0].text], prefix, a[1..], b);
    }
  }

  /** Leaves one step down are stored under the prefix extended by that step's segment. */
  lemma {:induction false} StoreUnder(m: map<string, string>, prefix: string, s: Step, ls: seq<Leaf>)
    ensures Store(m, prefix, Under(s, ls)) == Store(m, prefix + Segment(s), ls)
    decreases |ls|
  {
    if ls != [] {
      var u := Under(s, ls);
      assert ([s] + ls[0].path)[1..] == ls[0].path;
      assert prefix + Render([s] + ls[0].path) == (prefix + Segment(s)) + Render(ls[0].path);
      assert KeyOf(prefix, u[0].path) == KeyOf(prefix + Segment(s), ls[0].path);
      assert u[1..] == Under(s, ls[1..]);
      StoreUnder(m[KeyOf(prefix, u[0].path) := u[0].text], prefix, s, ls[1..]);
    }
  }

  /** One more map entry: its leaves are stored under the prefix extended by `key.`. */
  lemma EntryStep(m: map<string, string>, prefix: string, es: seq<Entry>, i: nat)
    requires i < |es|
    ensures Store(m, prefix, EntryLeaves(es[..i + 1]))
         == Store(Store(m, prefix, EntryLeaves(es[..i])), prefix + es[i].key + ".", Leaves(es[i].value))
  {
    var e := es[i];
    assert es[..i + 1][..i] == es[..i];
    assert EntryLeaves(es[..i + 1]) == EntryLeaves(es[..i]) + Under(Key(e.key), Leaves(e.value));
    StoreAppend(m, prefix, EntryLeaves(es[..i]), Under(Key(e.key), Leaves(e.value)));
    StoreUnder(Store(m, prefix, EntryLeaves(es[..i])), prefix, Key(e.key), Leaves(e.value));
    assert prefix + e.key + "." == prefix + Segment(Key(e.key));
  }

  /** One more sequence item: its leaves are stored under the prefix extended by `[i].`. */
  lemma ItemStep(m: map<string, string>, prefix: string, items: seq<Value>, i: nat)
    requires i < |items|
    ensures Store(m, prefix, ItemLeaves(items[..i + 1]))
         == Store(Store(m, prefix, ItemLeaves(items[..i])), prefix + "[" + NatToString(i) + "].", Leaves(items[i]))
  {
    assert items[..i + 1][..i] == items[..i];
    assert ItemLeaves(items[..i + 1]) == ItemLeaves(items[..i]) + Under(Index(i), Leaves(items[i]));
    StoreAppend(m, prefix, ItemLeaves(items[..i]), Under(Index(i), Leaves(items[i])));
    StoreUnder(Store(m, prefix, ItemLeaves(items[..i])), prefix, Index(i), Leaves(items[i]));
    assert prefix + "[" + NatToString(i) + "]." == prefix + Segment(Index(i));
  }

  /** Every leaf the flattening visits is a scalar of the tree, at the end of its route. */
  lemma {:induction false} LeavesSound(v: Value)
    ensures forall l :: l in Leaves(v) ==> Reaches(v, l.path, l.text)
    decreases v
  {
    match v
    case Scalar(t) =>
    case Map(es) =>
      EntryLeavesSound(es);
    case Seq(items) =>
      ItemLeavesSound(items);
  }

  /** Every leaf below a map's entries starts with one of its keys and continues inside that entry. */
  lemma {:induction false} EntryLeavesSound(es: seq<Entry>)
    ensures forall l :: l in EntryLeaves(es) ==>
      l.path != [] && l.path[0].Key? &&
      exists j :: 0 <= j < |es| && es[j].key == l.path[0].name && Reaches(es[j].value, l.path[1..], l.text)
    decreases es
  {
    if es != [] {
      var n := |es| - 1;
      var e := es[n];
      EntryLeavesSound(es[..n]);
      LeavesSound(e.value);
      var u := Under(Key(e.key), Leaves(e.value));
      forall l | l in EntryLeaves(es)
        ensures l.path != [] && l.path[0].Key?
        ensures exists j :: 0 <= j < |es| && es[j].key == l.path[0].name && Reaches(es[j].value, l.path[1..], l.text)
      {
        InConcat(l, EntryLeaves(es[..n]), u);
        if l in EntryLeaves(es[..n]) {
          var j :| 0 <= j < |es[..n]| && es[..n][j].key == l.path[0].name && Reaches(es[..n][j].value, l.path[1..], l.text);
          assert es[j] == es[..n][j];
        } else {
          var i :| 0 <= i < |u| && u[i] == l;
          assert l.path[1..] == Leaves(e.value)[i].path;
          assert es[n].key == l.path[0].name && Reaches(es[n].value, l.path[1..], l.text);
        }
      }
    }
  }

  /** Every leaf below a sequence's items starts with a valid index and continues inside that item. */
  lemma {:induction false} ItemLeavesSound(items: seq<Value>)
    ensures forall l :: l in ItemLeaves(items) ==>
      l.path != [] && l.path[0].Index? && l.path[0].i < |items| &&
      Reaches(items[l.path[0].i], l.path[1..], l.text)
    decreases items
  {
    if items != [] {
      var n := |items| - 1;
      ItemLeavesSound(items[..n]);
      LeavesSound(items[n]);
      var u := Under(Index(n), Leaves(items[n]));
      forall l | l in ItemLeaves(items)
        ensures l.path != [] && l.path[0].Index? && l.path[0].i < |items|
        ensures Reaches(items[l.path[0].i], l.path[1..], l.text)
      {
        InConcat(l, ItemLeaves(items[..n]), u);
        if l !in ItemLeaves(items[..n]) {
          var i :| 0 <= i < |u| && u[i] == l;
          assert l.path[1..] == Leaves(items[n])[i].path;
        }
      }
    }
  }

  /** The leaves of the `j`-th entry appear, under its key, among the leaves of the map. */
  lemma {:induction false} EntryLeavesHas(es: seq<Entry>, j: nat, l: Leaf)
    requires j < |es| && l in Leaves(es[j].value)
    ensures Leaf([Key(es[j].key)] + l.path, l.text) in EntryLeaves(es)
    decreases |es|
  {
    var n := |es| - 1;
    if j < n {
      assert es[..n][j] == es[j];
      EntryLeavesHas(es[..n], j, l);
    } else {
      var ls := Leaves(es[j].value);
      var i :| 0 <= i < |ls| && ls[i] == l;
      assert Under(Key(es[j].key), ls)[i] == Leaf([Key(es[j].key)] + l.path, l.text);
    }
  }

  /** The leaves of the `j`-th item appear, under its index, among the leaves of the sequence. */
  lemma {:induction false} ItemLeavesHas(items: seq<Value>, j: nat, l: Leaf)
    requires j < |items| && l in Leaves(items[j])
    ensures Leaf([Index(j)] + l.path, l.text) in ItemLeaves(items)
    decreases |items|
  {
    var n := |items| - 1;
    if j < n {
      assert items[..n][j] == items[j];
      ItemLeavesHas(items[..n], j, l);
    } else {
      var ls := Leaves(items[j]);
      var i :| 0 <= i < |ls| && ls[i] == l;
      assert Under(Index(j), ls)[i] == Leaf([Index(j)] + l.path, l.text);
    }
  }

  /** Every scalar of the tree is visited, with the route that reaches it. */
  lemma {:induction false} LeavesComplete(v: Value, path: seq<Step>, t: string)
    requires Reaches(v, path, t)
    ensures Leaf(path, t) in Leaves(v)
    decreases path
  {
    if path != [] {
      assert path == [path[0]] + path[1..];
      match path[0]
      case Key(k) =>
        var j :| 0 <= j < |v.entries| && v.entries[j].key == k && Reaches(v.entries[j].value, path[1..], t);
        LeavesComplete(v.entries[j].value, path[1..], t);
        EntryLeavesHas(v.entries, j, Leaf(path[1..], t));
      case Index(i) =>
        LeavesComplete(v.items[i], path[1..], t);
        ItemLeavesHas(v.items, i, Leaf(path[1..], t));
    }
  }

  /** The keys after storing are the keys before plus the keys of the leaves. */
  lemma {:induction false} StoreKeys(m: map<string, string>, prefix: string, ls: seq<Leaf>)
    ensures Store(m, prefix, ls).Keys == m.Keys + KeySet(prefix, ls)
    decreases |ls|
  {
    if ls != [] {
      StoreKeys(m[KeyOf(prefix, ls[0].path) := ls[0].text], prefix, ls[1..]);
      assert forall l :: l in ls <==> l == ls[0] || l in ls[1..];
      assert KeySet(prefix, ls) == {KeyOf(prefix, ls[0].path)} + KeySet(prefix, ls[1..]);
    }
  }

  /** A key no leaf is written under keeps its old value. */
  lemma {:induction false} StoreKeeps(m: map<string, string>, prefix: string, ls: seq<Leaf>, k: string)
    requires k in m && k !in KeySet(prefix, ls)
    ensures k in Store(m, prefix, ls) && Store(m, prefix, ls)[k] == m[k]
    decreases |ls|
  {
    if ls != [] {
      assert ls[0] in ls;
      assert KeySet(prefix, ls[1..]) <= KeySet(prefix, ls);
      StoreKeeps(m[KeyOf(prefix, ls[0].path) := ls[0].text], prefix, ls[1..], k);
    }
  }

  /** A key some leaf is written under holds the text of one of those leaves. */
  lemma {:induction false} StoreWritten(m: map<string, string>, prefix: string, ls: seq<Leaf>, k: string)
    requires k in KeySet(prefix, ls)
    ensures k in Store(m, prefix, ls)
    ensures exists l :: l in ls && KeyOf(prefix, l.path) == k && l.text == Store(m, prefix, ls)[k]
    decreases |ls|
  {
    var m' := m[KeyOf(prefix, ls[0].path) := ls[0].text];
    var rest := ls[1..];
    if k in KeySet(prefix, rest) {
      StoreWritten(m', prefix, rest, k);
      var l :| l in rest && KeyOf(prefix, l.path) == k && l.text == Store(m', prefix, rest)[k];
      assert l in ls;
    } else {
      assert k == KeyOf(prefix, ls[0].path);
      StoreKeeps(m', prefix, rest, k);
      assert ls[0] in ls;
    }
  }

  /**
   * Flattening only inserts: every key already in the map stays, and a key
   * that is not the key of a leaf keeps its value.
   */
  lemma StoreOnlyAdds(m: map<string, string>, prefix: string, ls: seq<Leaf>)
    ensures m.Keys <= Store(m, prefix, ls).Keys
    ensures forall k :: k in m && k !in KeySet(prefix, ls) ==> Store(m, prefix, ls)[k] == m[k]
  {
    StoreKeys(m, prefix, ls);
    forall k | k in m && k !in KeySet(prefix, ls)
      ensures Store(m, prefix, ls)[k] == m[k]
    {
      StoreKeeps(m, prefix, ls, k);
    }
  }

  /** Distinct leaves may still share a key (a map key may contain `.`); then only one survives. */
  ghost predicate DistinctKeys(prefix: string, ls: seq<Leaf>)
  {
    forall i, j :: 0 <= i < j < |ls| ==> KeyOf(prefix, ls[i].path) != KeyOf(prefix, ls[j].path)
  }

  /** There are never more keys than leaves, and exactly as many when, and only when, no two leaves share a key. */
  lemma {:induction false} KeySetSize(prefix: string, ls: seq<Leaf>)
    ensures |KeySet(prefix, ls)| <= |ls|
    ensures DistinctKeys(prefix, ls) <==> |KeySet(prefix, ls)| == |ls|
    decreases |ls|
  {
    if ls != [] {
      var rest := ls[1..];
      KeySetSize(prefix, rest);
      KeySetCons(prefix, ls);
      DistinctKeysCons(prefix, ls);
    }
  }

  /** The keys of a non-empty run of leaves: the first leaf's key and those of the rest. */
  lemma KeySetCons(prefix: string, ls: seq<Leaf>)
    requires ls != []
    ensures KeySet(prefix, ls) == {KeyOf(prefix, ls[0].path)} + KeySet(prefix, ls[1..])
  {
    assert forall l :: l in ls <==> l == ls[0] || l in ls[1..];
  }

  /** A non-empty run of leaves has distinct keys when its rest does and the first key is new. */
  lemma DistinctKeysCons(prefix: string, ls: seq<Leaf>)
    requires ls != []
    ensures DistinctKeys(prefix, ls) <==>
      DistinctKeys(prefix, ls[1..]) && KeyOf(prefix, ls[0].path) !in KeySet(prefix, ls[1..])
  {
    var rest, k0 := ls[1..], KeyOf(prefix, ls[0].path);
    if DistinctKeys(prefix, ls) {
      forall i, j | 0 <= i < j < |rest|
        ensures KeyOf(prefix, rest[i].path) != KeyOf(prefix, rest[j].path)
      {
        assert rest[i] == ls[i + 1] && rest[j] == ls[j + 1];
      }
      forall l | l in rest
        ensures KeyOf(prefix, l.path) != k0
      {
        var j :| 0 <= j < |rest| && rest[j] == l;
        assert ls[j + 1] == l;
      }
    }
    if DistinctKeys(prefix, rest) && k0 !in KeySet(prefix, rest) {
      forall i, j | 0 <= i < j < |ls|
        ensures KeyOf(prefix, ls[i].path) != KeyOf(prefix, ls[j].path)
      {
        assert ls[j] == rest[j - 1] && ls[j] in rest;
        if i > 0 {
          assert ls[i] == rest[i - 1];
        }
      }
    }
  }

  /** With distinct keys, every leaf's text is found under its own key. */
  lemma StoreDistinct(m: map<string, string>, prefix: string, ls: seq<Leaf>, i: nat)
    requires DistinctKeys(prefix, ls) && i < |ls|
    ensures KeyOf(prefix, ls[i].path) in Store(m, prefix, ls)
    ensures Store(m, prefix, ls)[KeyOf(prefix, ls[i].path)] == ls[i].text
  {
    var k := KeyOf(prefix, ls[i].path);
    assert ls[i] in ls;
    StoreWritten(m, prefix, ls, k);
    var l :| l in ls && KeyOf(prefix, l.path) == k && l.text == Store(m, prefix, ls)[k];
    var j :| 0 <= j < |ls| && ls[j] == l;
    assert j == i;
  }

  /**
   * The flattened document: its keys are exactly the keys of the scalar leaves,
   * each key holds the scalar found at the end of a route spelled that way,
   * and there are at most as many entries as scalars.
   */
  lemma FlattenedSound(v: Value)
    ensures Flattened(v).Keys == KeySet("", Leaves(v))
    ensures |Flattened(v)| <= |Leaves(v)|
    ensures |Flattened(v)| == |Leaves(v)| <==> DistinctKeys("", Leaves(v))
    ensures forall k :: k in Flattened(v) ==>
      exists l :: l in Leaves(v) && KeyOf("", l.path) == k && l.text == Flattened(v)[k] && Reaches(v, l.path, l.text)
  {
    StoreKeys(map[], "", Leaves(v));
    KeySetSize("", Leaves(v));
    assert |Flattened(v)| == |Flattened(v).Keys|;
    LeavesSound(v);
    forall k | k in Flattened(v)
      ensures exists l :: l in Leaves(v) && KeyOf("", l.path) == k && l.text == Flattened(v)[k] && Reaches(v, l.path, l.text)
    {
      StoreWritten(map[], "", Leaves(v), k);
    }
  }

  /**
   * Every scalar of the document is stored under the key spelled from its
   * route; when no two scalars share a key, each holds its own scalar and
   * there are exactly as many entries as scalars.
   */
  lemma FlattenedComplete(v: Value, path: seq<Step>, t: string)
    requires Reaches(v, path, t)
    ensures KeyOf("", path) in Flattened(v)
    ensures DistinctKeys("", Leaves(v)) ==> Flattened(v)[KeyOf("", path)] == t && |Flattened(v)| == |Leaves(v)|
  {
    LeavesComplete(v, path, t);
    var ls := Leaves(v);
    StoreKeys(map[], "", ls);
    if DistinctKeys("", ls) {
      var i :| 0 <= i < |ls| && ls[i] == Leaf(path, t);
      StoreDistinct(map[], "", ls, i);
      KeySetSize("", ls);
      assert |Flattened(v)| == |Flattened(v).Keys|;
    }
  }

  /** A list under `xs` is spelled `xs.[0]`, `xs.[1]`: the map key adds its `.` before the index. */
  lemma ListUnderKeyExample()
    ensures Flattened(Map([Entry("xs", Seq([Scalar("a"), Scalar("b")]))])) == map["xs.[0]" := "a", "xs.[1]" := "b"]
  {
    var ls := [Leaf([Key("xs"), Index(0)], "a"), Leaf([Key("xs"), Index(1)], "b")];
    ListUnderKeyLeaves();
    ListUnderKeyKeys();
    assert ls[1..] == [ls[1]] && ls[1..][1..] == [];
    var m0: map<string, string> := map["xs.[0]" := "a"];
    assert Store(m0, "", ls[1..]) == m0["xs.[1]" := "b"];
  }

  /** The keys of the two routes. */
  lemma ListUnderKeyKeys()
    ensures KeyOf("", [Key("xs"), Index(0)]) == "xs.[0]" && KeyOf("", [Key("xs"), Index(1)]) == "xs.[1]"
  {
    assert NatToString(0) == "0" && NatToString(1) == "1";
    assert Render([Key("xs"), Index(0)]) == "xs." + ("[0]." + "");
    assert Render([Key("xs"), Index(1)]) == "xs." + ("[1]." + "");
  }

  /** The routes of the two items of a list under the key `xs`. */
  lemma ListUnderKeyLeaves()
    ensures Leaves(Map([Entry("xs", Seq([Scalar("a"), Scalar("b")]))]))
         == [Leaf([Key("xs"), Index(0)], "a"), Leaf([Key("xs"), Index(1)], "b")]
  {
    var items := [Scalar("a"), Scalar("b")];
    assert items[..1] == [Scalar("a")] && items[..1][..0] == [];
    assert ItemLeaves(items[..1]) == [Leaf([Index(0)], "a")] by {
      assert Under(Index(0), [Leaf([], "a")])[0] == Leaf([Index(0)], "a");
    }
    assert ItemLeaves(items) == [Leaf([Index(0)], "a"), Leaf([Index(1)], "b")] by {
      assert Under(Index(1), [Leaf([], "b")])[0] == Leaf([Index(1)], "b");
    }
    var es := [Entry("xs", Seq(items))];
    assert es[..0] == [];
    var u := Under(Key("xs"), ItemLeaves(items));
    assert u[0] == Leaf([Key("xs"), Index(0)], "a") && u[1] == Leaf([Key("xs"), Index(1)], "b");
  }

  /** Empty maps and empty sequences contribute no entry. */
  lemma EmptyContainersExample()
    ensures Flattened(Map([Entry("a", Map([])), Entry("b", Seq([]))])) == map[]
  {
    var es := [Entry("a", Map([])), Entry("b", Seq([]))];
    assert es[..1] == [Entry("a", Map([]))] && es[..1][..0] == [];
    assert EntryLeaves(es) == [];
  }

  /**
   * `{"a.b": "1", "a": {"b": "2"}}` has two scalars spelled `a.b`; the map
   * keeps one entry, and which one depends on the order the map is visited.
   */
  lemma CollidingKeysExample()
    ensures var v := Map([Entry("a.b", Scalar("1")), Entry("a", Map([Entry("b", Scalar("2"))]))]);
      |Leaves(v)| == 2 && Flattened(v) == map["a.b" := "2"]
  {
    var ls := [Leaf([Key("a.b")], "1"), Leaf([Key("a"), Key("b")], "2")];
    CollidingKeysLeaves();
    CollidingKeysKeys();
    assert ls[1..] == [ls[1]] && ls[1..][1..] == [];
    var m0: map<string, string> := map["a.b" := "1"];
    assert Store(m0, "", ls[1..]) == m0["a.b" := "2"];
  }

  /** Both routes spell the key `a.b`. */
  lemma CollidingKeysKeys()
    ensures KeyOf("", [Key("a.b")]) == "a.b" && KeyOf("", [Key("a"), Key("b")]) == "a.b"
  {
    assert Render([Key("a.b")]) == "a.b." + "";
    assert Render([Key("a"), Key("b")]) == "a." + ("b." + "");
  }

  /** The routes of the two scalars of the colliding document. */
  lemma CollidingKeysLeaves()
    ensures Leaves(Map([Entry("a.b", Scalar("1")), Entry("a", Map([Entry("b", Scalar("2"))]))]))
         == [Leaf([Key("a.b")], "1"), Leaf([Key("a"), Key("b")], "2")]
  {
    var inner := [Entry("b", Scalar("2"))];
    assert inner[..0] == [];
    assert EntryLeaves(inner) == [Leaf([Key("b")], "2")] by {
      assert Under(Key("b"), [Leaf([], "2")])[0] == Leaf([Key("b")], "2");
    }
    var es := [Entry("a.b", Scalar("1")), Entry("a", Map(inner))];
    assert es[..1] == [Entry("a.b", Scalar("1"))] && es[..1][..0] == [];
    var ls := [Leaf([Key("a.b")], "1"), Leaf([Key("a"), Key("b")], "2")];
    assert EntryLeaves(es[..1]) == [ls[0]] by {
      assert Under(Key("a.b"), [Leaf([], "1")])[0] == ls[0];
    }
    assert Under(Key("a"), [Leaf([Key("b")], "2")])[0] == ls[1];
  }
}
