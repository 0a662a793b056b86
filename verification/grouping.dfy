/**
 The kitchen's view of an order: its line items folded into groups keyed by
 (menu item id, stripped note). The fold mirrors the views' `defaultdict`
 loop; `DistinctKeys`, `QuantityOf` and `FirstIndex` give an independent
 reference description of the same groups, and the lemmas below prove the
 two agree.
 */
module Grouping {
  import opened Wrappers
  import opened Text

  /** The menu item a line refers to: its primary key and its name. */
  datatype ItemRef = ItemRef(id: nat, name: string)

  /** One order line as the kitchen reads it. */
  datatype Line = Line(item: ItemRef, quantity: int, notes: string)

  /** The grouping key. */
  datatype Key = Key(itemId: nat, note: string)

  function KeyOf(l: Line): Key {
    Key(l.item.id, Strip(l.notes))
  }

  /** A group of the page view: empty (`menu_item` None) until a line of its key fills it. */
  datatype HtmlGroup = HtmlGroup(menuItem: Option<ItemRef>, quantity: int, notes: string)

  /** A group of the JSON view: empty (`menu_item_name` blank) until a line of its key fills it. */
  datatype JsonGroup = JsonGroup(menuItemName: string, quantity: int, notes: string)

  /* ---------- Insertion-ordered dictionary (Python's dict / defaultdict) ---------- */

  function IndexOf<V>(d: seq<(Key, V)>, k: Key): (r: Option<nat>)
    ensures r.Some? ==> r.value < |d| && d[r.value].0 == k
    ensures r.None? ==> forall i :: 0 <= i < |d| ==> d[i].0 != k
  {
    if d == [] then None
    else if d[0].0 == k then Some(0)
    else match IndexOf(d[1..], k)
      case None => None
      case Some(i) => Some(i + 1)
  }

  /** `d[k]` on a defaultdict: the position of `k`, appending `(k, blank)` first when `k` is new. */
  function Touch<V>(d: seq<(Key, V)>, k: Key, blank: V): (r: (seq<(Key, V)>, nat))
    ensures r.1 < |r.0| && r.0[r.1].0 == k
    ensures IndexOf(d, k).Some? ==> r.0 == d && r.1 == IndexOf(d, k).value
    ensures IndexOf(d, k).None? ==> r.0 == d + [(k, blank)] && r.1 == |d|
  {
    match IndexOf(d, k)
    case Some(i) => (d, i)
    case None => (d + [(k, blank)], |d|)
  }

  function Values<V>(d: seq<(Key, V)>): (r: seq<V>)
    ensures |r| == |d| && forall i :: 0 <= i < |d| ==> r[i] == d[i].1
  {
    seq(|d|, i requires 0 <= i < |d| => d[i].1)
  }

  /* ---------- The two folds, as written in the page and JSON views ---------- */

  function StepHtml(d: seq<(Key, HtmlGroup)>, l: Line): seq<(Key, HtmlGroup)> {
    var k := KeyOf(l);
    var (d1, i) := Touch(d, k, HtmlGroup(None, 0, ""));
    var g := d1[i].1;
    var g1 := if g.menuItem.None? then g.(menuItem := Some(l.item), notes := Strip(l.notes)) else g;
    d1[i := (k, g1.(quantity := g1.quantity + l.quantity))]
  }

  function FoldHtml(lines: seq<Line>): seq<(Key, HtmlGroup)> {
    if lines == [] then []
    else StepHtml(FoldHtml(lines[..|lines| - 1]), lines[|lines| - 1])
  }

  function StepJson(d: seq<(Key, JsonGroup)>, l: Line): seq<(Key, JsonGroup)> {
    var k := KeyOf(l);
    var (d1, i) := Touch(d, k, JsonGroup("", 0, ""));
    var g := d1[i].1;
    var g1 := if g.menuItemName == "" then g.(menuItemName := l.item.name, notes := Strip(l.notes)) else g;
    d1[i := (k, g1.(quantity := g1.quantity + l.quantity))]
  }

  function FoldJson(lines: seq<Line>): seq<(Key, JsonGroup)> {
    if lines == [] then []
    else StepJson(FoldJson(lines[..|lines| - 1]), lines[|lines| - 1])
  }

  /* ---------- Reference description ---------- */

  /** The keys of the lines, each once, in order of first occurrence. */
  function DistinctKeys(lines: seq<Line>): (ks: seq<Key>)
    ensures forall i :: 0 <= i < |lines| ==> KeyOf(lines[i]) in ks
    ensures forall i, j :: 0 <= i < j < |ks| ==> ks[i] != ks[j]
  {
    if lines == [] then []
    else
      var p := lines[..|lines| - 1];
      var ks := DistinctKeys(p);
      assert forall i :: 0 <= i < |p| ==> lines[i] == p[i];
      var k := KeyOf(lines[|lines| - 1]);
      if k in ks then ks else ks + [k]
  }

  /** The total quantity of the lines with key `k`. */
  function QuantityOf(lines: seq<Line>, k: Key): int {
    if lines == [] then 0
    else
      var l := lines[|lines| - 1];
      QuantityOf(lines[..|lines| - 1], k) + (if KeyOf(l) == k then l.quantity else 0)
  }

  /** The position of the first line with key `k`. */
  function FirstIndex(lines: seq<Line>, k: Key): (r: nat)
    requires k in DistinctKeys(lines)
    ensures r < |lines| && KeyOf(lines[r]) == k
    ensures forall j :: 0 <= j < r ==> KeyOf(lines[j]) != k
  {
    var p := lines[..|lines| - 1];
    if k in DistinctKeys(p) then
      var r := FirstIndex(p, k);
      assert lines[r] == p[r];
      r
    else
      assert forall j :: 0 <= j < |p| ==> lines[j] == p[j];
      |lines| - 1
  }

  /** The page-view group for key `k`: the first such line's item and stripped note, and the summed quantity. */
  function HtmlRef(lines: seq<Line>, k: Key): HtmlGroup
    requires k in DistinctKeys(lines)
  {
    var first := lines[FirstIndex(lines, k)];
    HtmlGroup(Some(first.item), QuantityOf(lines, k), Strip(first.notes))
  }

  /** The JSON-view group for key `k`: the first such line's item name and stripped note, and the summed quantity. */
  function JsonRef(lines: seq<Line>, k: Key): JsonGroup
    requires k in DistinctKeys(lines)
  {
    var first := lines[FirstIndex(lines, k)];
    JsonGroup(first.item.name, QuantityOf(lines, k), Strip(first.notes))
  }

  /* ---------- Fold versus reference ---------- */

  lemma {:induction false} QuantityOfAbsent(lines: seq<Line>, k: Key)
    requires k !in DistinctKeys(lines)
    ensures QuantityOf(lines, k) == 0
  {
    if lines != [] {
      var p := lines[..|lines| - 1];
      assert forall i :: 0 <= i < |p| ==> p[i] == lines[i];
      QuantityOfAbsent(p, k);
    }
  }

  /** Adding one line at the end changes the reference only at that line's key, and only by its quantity. */
  lemma ReferenceExtend(lines: seq<Line>, k: Key)
    requires |lines| > 0
    requires k in DistinctKeys(lines[..|lines| - 1])
    ensures k in DistinctKeys(lines)
    ensures FirstIndex(lines, k) == FirstIndex(lines[..|lines| - 1], k)
    ensures lines[FirstIndex(lines, k)] == lines[..|lines| - 1][FirstIndex(lines, k)]
    ensures QuantityOf(lines, k) == QuantityOf(lines[..|lines| - 1], k)
      + (if KeyOf(lines[|lines| - 1]) == k then lines[|lines| - 1].quantity else 0)
  {
  }

  /** The reference group of a key first seen in the last line. */
  lemma ReferenceNew(lines: seq<Line>)
    requires |lines| > 0
    requires KeyOf(lines[|lines| - 1]) !in DistinctKeys(lines[..|lines| - 1])
    ensures DistinctKeys(lines) == DistinctKeys(lines[..|lines| - 1]) + [KeyOf(lines[|lines| - 1])]
    ensures FirstIndex(lines, KeyOf(lines[|lines| - 1])) == |lines| - 1
    ensures QuantityOf(lines, KeyOf(lines[|lines| - 1])) == lines[|lines| - 1].quantity
  {
    QuantityOfAbsent(lines[..|lines| - 1], KeyOf(lines[|lines| - 1]));
  }

  lemma HtmlRefExtend(lines: seq<Line>, k: Key)
    requires |lines| > 0
    requires k in DistinctKeys(lines[..|lines| - 1])
    ensures k in DistinctKeys(lines)
    ensures HtmlRef(lines, k) == HtmlRef(lines[..|lines| - 1], k).(quantity := QuantityOf(lines, k))
    ensures QuantityOf(lines, k) == QuantityOf(lines[..|lines| - 1], k)
      + (if KeyOf(lines[|lines| - 1]) == k then lines[|lines| - 1].quantity else 0)
  {
    ReferenceExtend(lines, k);
  }

  lemma JsonRefExtend(lines: seq<Line>, k: Key)
    requires |lines| > 0
    requires k in DistinctKeys(lines[..|lines| - 1])
    ensures k in DistinctKeys(lines)
    ensures JsonRef(lines, k) == JsonRef(lines[..|lines| - 1], k).(quantity := QuantityOf(lines, k))
    ensures QuantityOf(lines, k) == QuantityOf(lines[..|lines| - 1], k)
      + (if KeyOf(lines[|lines| - 1]) == k then lines[|lines| - 1].quantity else 0)
  {
    ReferenceExtend(lines, k);
  }

  /** `d` is, entry for entry, the reference grouping of `lines`. */
  ghost predicate HtmlMatches(d: seq<(Key, HtmlGroup)>, lines: seq<Line>) {
    var ks := DistinctKeys(lines);
    |d| == |ks| && forall i :: 0 <= i < |d| ==> d[i].0 == ks[i] && d[i].1 == HtmlRef(lines, ks[i])
  }

  ghost predicate JsonMatches(d: seq<(Key, JsonGroup)>, lines: seq<Line>) {
    var ks := DistinctKeys(lines);
    |d| == |ks| && forall i :: 0 <= i < |d| ==> d[i].0 == ks[i] && d[i].1 == JsonRef(lines, ks[i])
  }

  /** In a dictionary whose keys are distinct, a key's index is the one position holding it. */
  lemma {:induction false} IndexOfDistinct<V>(d: seq<(Key, V)>, ks: seq<Key>, idx: nat)
    requires |d| == |ks| && forall i :: 0 <= i < |d| ==> d[i].0 == ks[i]
    requires forall i, j :: 0 <= i < j < |ks| ==> ks[i] != ks[j]
    requires idx < |ks|
    ensures IndexOf(d, ks[idx]) == Some(idx)
  {
    if idx > 0 {
      assert d[0].0 != ks[idx];
      IndexOfDistinct(d[1..], ks[1..], idx - 1);
    }
  }

  lemma StepHtmlSeen(d: seq<(Key, HtmlGroup)>, l: Line, idx: nat)
    requires IndexOf(d, KeyOf(l)) == Some(idx) && d[idx].1.menuItem.Some?
    ensures StepHtml(d, l) == d[idx := (KeyOf(l), d[idx].1.(quantity := d[idx].1.quantity + l.quantity))]
  {
  }

  lemma StepHtmlNew(d: seq<(Key, HtmlGroup)>, l: Line)
    requires IndexOf(d, KeyOf(l)) == None
    ensures StepHtml(d, l) == d + [(KeyOf(l), HtmlGroup(Some(l.item), l.quantity, Strip(l.notes)))]
  {
  }

  lemma StepJsonSeen(d: seq<(Key, JsonGroup)>, l: Line, idx: nat)
    requires IndexOf(d, KeyOf(l)) == Some(idx) && d[idx].1.menuItemName == l.item.name
    requires d[idx].1.notes == Strip(l.notes)
    ensures StepJson(d, l) == d[idx := (KeyOf(l), d[idx].1.(quantity := d[idx].1.quantity + l.quantity))]
  {
  }

  lemma StepJsonNew(d: seq<(Key, JsonGroup)>, l: Line)
    requires IndexOf(d, KeyOf(l)) == None
    ensures StepJson(d, l) == d + [(KeyOf(l), JsonGroup(l.item.name, l.quantity, Strip(l.notes)))]
  {
  }

  lemma HtmlStepSeen(lines: seq<Line>, d: seq<(Key, HtmlGroup)>)
    requires |lines| > 0
    requires HtmlMatches(d, lines[..|lines| - 1])
    requires KeyOf(lines[|lines| - 1]) in DistinctKeys(lines[..|lines| - 1])
    ensures HtmlMatches(StepHtml(d, lines[|lines| - 1]), lines)
  {
    var p := lines[..|lines| - 1];
    var l := lines[|lines| - 1];
    var k := KeyOf(l);
    var ks := DistinctKeys(p);
    var idx :| 0 <= idx < |ks| && ks[idx] == k;
    IndexOfDistinct(d, ks, idx);
    var g := d[idx].1;
    StepHtmlSeen(d, l, idx);
    var r := StepHtml(d, l);
    assert DistinctKeys(lines) == ks;
    forall i | 0 <= i < |r|
      ensures r[i].0 == ks[i] && r[i].1 == HtmlRef(lines, ks[i])
    {
      HtmlRefExtend(lines, ks[i]);
      assert (ks[i] == k) == (i == idx);
    }
  }

  lemma HtmlStepNew(lines: seq<Line>, d: seq<(Key, HtmlGroup)>)
    requires |lines| > 0
    requires HtmlMatches(d, lines[..|lines| - 1])
    requires KeyOf(lines[|lines| - 1]) !in DistinctKeys(lines[..|lines| - 1])
    ensures HtmlMatches(StepHtml(d, lines[|lines| - 1]), lines)
  {
    var p := lines[..|lines| - 1];
    var l := lines[|lines| - 1];
    var k := KeyOf(l);
    var ks := DistinctKeys(p);
    assert IndexOf(d, k).None?;
    StepHtmlNew(d, l);
    var r := StepHtml(d, l);
    ReferenceNew(lines);
    var rks := DistinctKeys(lines);
    forall i | 0 <= i < |r|
      ensures r[i].0 == rks[i] && r[i].1 == HtmlRef(lines, rks[i])
    {
      if i < |ks| {
        HtmlRefExtend(lines, ks[i]);
        assert r[i] == d[i];
      }
    }
  }

  lemma {:induction false} FoldHtmlReference(lines: seq<Line>)
    ensures HtmlMatches(FoldHtml(lines), lines)
  {
    if lines != [] {
      var p := lines[..|lines| - 1];
      FoldHtmlReference(p);
      if KeyOf(lines[|lines| - 1]) in DistinctKeys(p) {
        HtmlStepSeen(lines, FoldHtml(p));
      } else {
        HtmlStepNew(lines, FoldHtml(p));
      }
    }
  }

  /** Two lines that name the same menu item carry the same item name (true of lines read from the store). */
  predicate ConsistentNames(lines: seq<Line>) {
    forall i, j :: 0 <= i < |lines| && 0 <= j < |lines| && lines[i].item.id == lines[j].item.id
      ==> lines[i].item.name == lines[j].item.name
  }

  lemma JsonStepSeen(lines: seq<Line>, d: seq<(Key, JsonGroup)>)
    requires |lines| > 0 && ConsistentNames(lines)
    requires JsonMatches(d, lines[..|lines| - 1])
    requires KeyOf(lines[|lines| - 1]) in DistinctKeys(lines[..|lines| - 1])
    ensures JsonMatches(StepJson(d, lines[|lines| - 1]), lines)
  {
    var p := lines[..|lines| - 1];
    var l := lines[|lines| - 1];
    var k := KeyOf(l);
    var ks := DistinctKeys(p);
    var idx :| 0 <= idx < |ks| && ks[idx] == k;
    IndexOfDistinct(d, ks, idx);
    var g := d[idx].1;
    var f := FirstIndex(p, k);
    assert g.menuItemName == p[f].item.name && g.notes == Strip(p[f].notes);
    assert p[f].item.name == l.item.name by {
      assert lines[f] == p[f];
    }
    StepJsonSeen(d, l, idx);
    var r := StepJson(d, l);
    assert DistinctKeys(lines) == ks;
    forall i | 0 <= i < |r|
      ensures r[i].0 == ks[i] && r[i].1 == JsonRef(lines, ks[i])
    {
      JsonRefExtend(lines, ks[i]);
      assert (ks[i] == k) == (i == idx);
    }
  }

  lemma JsonStepNew(lines: seq<Line>, d: seq<(Key, JsonGroup)>)
    requires |lines| > 0
    requires JsonMatches(d, lines[..|lines| - 1])
    requires KeyOf(lines[|lines| - 1]) !in DistinctKeys(lines[..|lines| - 1])
    ensures JsonMatches(StepJson(d, lines[|lines| - 1]), lines)
  {
    var p := lines[..|lines| - 1];
    var l := lines[|lines| - 1];
    var k := KeyOf(l);
    var ks := DistinctKeys(p);
    assert IndexOf(d, k).None?;
    StepJsonNew(d, l);
    var r := StepJson(d, l);
    ReferenceNew(lines);
    forall i | 0 <= i < |r|
      ensures r[i].0 == DistinctKeys(lines)[i] && r[i].1 == JsonRef(lines, DistinctKeys(lines)[i])
    {
      if i < |ks| {
        ReferenceExtend(lines, ks[i]);
      }
    }
  }

  lemma {:induction false} FoldJsonReference(lines: seq<Line>)
    ensures ConsistentNames(lines) ==> JsonMatches(FoldJson(lines), lines)
  {
    if lines != [] && ConsistentNames(lines) {
      var p := lines[..|lines| - 1];
      assert ConsistentNames(p) by {
        assert forall i :: 0 <= i < |p| ==> p[i] == lines[i];
      }
      FoldJsonReference(p);
      if KeyOf(lines[|lines| - 1]) in DistinctKeys(p) {
        JsonStepSeen(lines, FoldJson(p));
      } else {
        JsonStepNew(lines, FoldJson(p));
      }
    }
  }

  /* ---------- The grouped views ---------- */

  /**
   The page view's grouping: one group per distinct (menu item id, stripped
   note) key in order of first occurrence, each holding the first such line's
   menu item and stripped note and the sum of the quantities of all lines
   with that key.
   */
  function GroupHtml(lines: seq<Line>): (r: seq<HtmlGroup>)
    ensures |r| == |DistinctKeys(lines)|
    ensures forall i :: 0 <= i < |r| ==> r[i] == HtmlRef(lines, DistinctKeys(lines)[i])
  {
    FoldHtmlReference(lines);
    Values(FoldHtml(lines))
  }

  /**
   The JSON view's grouping: when lines naming the same menu item carry the
   same name, the same groups as the page view, by item name.
   */
  function GroupJson(lines: seq<Line>): (r: seq<JsonGroup>)
    ensures ConsistentNames(lines) ==> |r| == |DistinctKeys(lines)|
    ensures ConsistentNames(lines) ==> forall i :: 0 <= i < |r| ==> r[i] == JsonRef(lines, DistinctKeys(lines)[i])
  {
    FoldJsonReference(lines);
    Values(FoldJson(lines))
  }

  /** The page and JSON views read the same menu item's name the same way. */
  function HtmlToJson(g: HtmlGroup): JsonGroup {
    JsonGroup(if g.menuItem.Some? then g.menuItem.value.name else "", g.quantity, g.notes)
  }

  /**
   The JSON view yields the page view's groups, in the same order, whenever
   lines naming the same menu item carry the same name: the two views fill a
   group differently (`menu_item is None` against `menu_item_name == ''`) but
   the difference never shows.
   */
  lemma JsonAgreesWithHtml(lines: seq<Line>)
    requires ConsistentNames(lines)
    ensures |GroupJson(lines)| == |GroupHtml(lines)|
    ensures forall i :: 0 <= i < |GroupJson(lines)| ==> GroupJson(lines)[i] == HtmlToJson(GroupHtml(lines)[i])
  {
  }

  /** Every key of the result is the key of some line, and every line's key is in the result. */
  lemma {:induction false} DistinctKeysExact(lines: seq<Line>, k: Key)
    ensures k in DistinctKeys(lines) <==> exists i :: 0 <= i < |lines| && KeyOf(lines[i]) == k
  {
    if lines != [] {
      var p := lines[..|lines| - 1];
      DistinctKeysExact(p, k);
      if k in DistinctKeys(p) {
        var i :| 0 <= i < |p| && KeyOf(p[i]) == k;
        assert lines[i] == p[i];
      }
    }
  }

  /**
   Keys are listed in order of first occurrence: a key listed earlier first
   appears on an earlier line than a key listed later.
   */
  lemma {:induction false} FirstOccurrenceOrder(lines: seq<Line>, i: nat, j: nat)
    requires i < j < |DistinctKeys(lines)|
    ensures FirstIndex(lines, DistinctKeys(lines)[i]) < FirstIndex(lines, DistinctKeys(lines)[j])
  {
    var n := |lines|;
    var p := lines[..n - 1];
    var ks := DistinctKeys(lines);
    var kp := DistinctKeys(p);
    var a := ks[i];
    var b := ks[j];
    if j < |kp| {
      assert a == kp[i] && b == kp[j];
      FirstOccurrenceOrder(p, i, j);
      ReferenceExtend(lines, a);
      ReferenceExtend(lines, b);
    } else {
      assert a == kp[i] && b == KeyOf(lines[n - 1]) && b !in kp;
      ReferenceExtend(lines, a);
      assert FirstIndex(lines, b) == n - 1;
    }
  }

  /** The sum of the quantities of some lines. */
  function LinesQuantity(lines: seq<Line>): int {
    if lines == [] then 0 else LinesQuantity(lines[..|lines| - 1]) + lines[|lines| - 1].quantity
  }

  /** The sum of the quantities of some groups. */
  function GroupsQuantity(gs: seq<HtmlGroup>): int {
    if gs == [] then 0 else GroupsQuantity(gs[..|gs| - 1]) + gs[|gs| - 1].quantity
  }

  lemma {:induction false} GroupsQuantityUpdate(gs: seq<HtmlGroup>, i: nat, g: HtmlGroup)
    requires i < |gs|
    ensures GroupsQuantity(gs[i := g]) == GroupsQuantity(gs) - gs[i].quantity + g.quantity
  {
    var n := |gs| - 1;
    if i < n {
      assert gs[i := g][..n] == gs[..n][i := g];
      GroupsQuantityUpdate(gs[..n], i, g);
    } else {
      assert gs[i := g][..n] == gs[..n];
    }
  }

  lemma GroupsQuantityAppend(gs: seq<HtmlGroup>, g: HtmlGroup)
    ensures GroupsQuantity(gs + [g]) == GroupsQuantity(gs) + g.quantity
  {
    assert (gs + [g])[..|gs|] == gs;
  }

  lemma QuantityStepSeen(d: seq<(Key, HtmlGroup)>, l: Line, idx: nat)
    requires IndexOf(d, KeyOf(l)) == Some(idx) && d[idx].1.menuItem.Some?
    ensures GroupsQuantity(Values(StepHtml(d, l))) == GroupsQuantity(Values(d)) + l.quantity
  {
    StepHtmlSeen(d, l, idx);
    var g := d[idx].1;
    assert Values(StepHtml(d, l)) == Values(d)[idx := g.(quantity := g.quantity + l.quantity)];
    GroupsQuantityUpdate(Values(d), idx, g.(quantity := g.quantity + l.quantity));
  }

  lemma QuantityStepNew(d: seq<(Key, HtmlGroup)>, l: Line)
    requires IndexOf(d, KeyOf(l)) == None
    ensures GroupsQuantity(Values(StepHtml(d, l))) == GroupsQuantity(Values(d)) + l.quantity
  {
    StepHtmlNew(d, l);
    var g := HtmlGroup(Some(l.item), l.quantity, Strip(l.notes));
    assert Values(StepHtml(d, l)) == Values(d) + [g];
    GroupsQuantityAppend(Values(d), g);
  }

  lemma {:induction false} FoldKeepsQuantity(lines: seq<Line>)
    ensures GroupsQuantity(Values(FoldHtml(lines))) == LinesQuantity(lines)
  {
    if lines != [] {
      var p := lines[..|lines| - 1];
      var l := lines[|lines| - 1];
      var k := KeyOf(l);
      var d := FoldHtml(p);
      FoldKeepsQuantity(p);
      FoldHtmlReference(p);
      var ks := DistinctKeys(p);
      if k in ks {
        var idx :| 0 <= idx < |ks| && ks[idx] == k;
        IndexOfDistinct(d, ks, idx);
        QuantityStepSeen(d, l, idx);
      } else {
        assert IndexOf(d, k).None?;
        QuantityStepNew(d, l);
      }
    }
  }

  /** Grouping loses and invents nothing: the groups' quantities add up to the lines' quantities. */
  lemma GroupingKeepsQuantity(lines: seq<Line>)
    ensures GroupsQuantity(GroupHtml(lines)) == LinesQuantity(lines)
  {
    FoldKeepsQuantity(lines);
  }
}
