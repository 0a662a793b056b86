/**
 The waiters' actions: submitting an order for a table and toggling a
 table's availability. Form posts are modelled as Django's query dicts:
 the keys in posting order, each with the value `get` returns.
 */
module Waiter {
  import opened Wrappers
  import opened Text
  import opened Models
  import opened Http

  datatype Form = Form(keys: seq<string>, fields: map<string, string>)

  /** Every key is iterated once and has a value. */
  predicate WellFormedForm(f: Form) {
    && (forall k :: k in f.keys ==> k in f.fields)
    && (forall k :: k in f.fields ==> k in f.keys)
    && (forall i, j :: 0 <= i < j < |f.keys| ==> f.keys[i] != f.keys[j])
  }

  /** `request.POST.get(key, default)`. */
  function FieldOr(f: Form, key: string, default: string): string {
    if key in f.fields then f.fields[key] else default
  }

  const ItemPrefix: string := "item_id_"

  /** One line of a submission: the posted item id, quantity and note. */
  datatype RawLine = RawLine(id: int, quantity: int, notes: string)

  /** The quantity posted for a suffix: a missing field means 1, a present one must parse. */
  function PostedQuantity(f: Form, suffix: string): (r: Option<int>)
    ensures "quantity_" + suffix !in f.fields ==> r == Some(1)
    ensures "quantity_" + suffix in f.fields ==> r == ParseInt(f.fields["quantity_" + suffix])
  {
    if "quantity_" + suffix in f.fields then ParseInt(f.fields["quantity_" + suffix]) else Some(1)
  }

  /**
   What one posted key contributes: a line exactly when it is an `item_id_`
   key whose value parses as an integer and whose quantity (1 when absent)
   parses to a positive integer; the line carries those values and the raw
   note of the same suffix.
   */
  function LineFor(f: Form, key: string): (r: Option<RawLine>)
    requires key in f.fields
    ensures r.Some? <==> (StartsWith(key, ItemPrefix) && ParseInt(f.fields[key]).Some?
                          && PostedQuantity(f, key[|ItemPrefix|..]).Some? && PostedQuantity(f, key[|ItemPrefix|..]).value > 0)
    ensures r.Some? ==> var suffix := key[|ItemPrefix|..];
      && Some(r.value.id) == ParseInt(f.fields[key])
      && Some(r.value.quantity) == PostedQuantity(f, suffix) && r.value.quantity > 0
      && r.value.notes == FieldOr(f, "notes_" + suffix, "")
  {
    if !StartsWith(key, ItemPrefix) then None
    else
      var suffix := key[|ItemPrefix|..];
      assert ItemPrefix + suffix == key;
      match ParseInt(f.fields[ItemPrefix + suffix])
      case None => None
      case Some(id) =>
        match PostedQuantity(f, suffix)
        case None => None
        case Some(q) => if q <= 0 then None else Some(RawLine(id, q, FieldOr(f, "notes_" + suffix, "")))
  }

  /**
   A line posted without a quantity field is read with quantity 1: an
   `item_id_` key whose id parses gives a line whenever its suffix has no
   `quantity_` field.
   */
  lemma LineWithoutQuantity(f: Form, key: string)
    requires key in f.fields && StartsWith(key, ItemPrefix) && ParseInt(f.fields[key]).Some?
    requires "quantity_" + key[|ItemPrefix|..] !in f.fields
    ensures LineFor(f, key).Some?
    ensures LineFor(f, key).value.quantity == 1
    ensures Some(LineFor(f, key).value.id) == ParseInt(f.fields[key])
  {
  }

  /** What `read` yields for each of some keys, in key order, skipping the keys that yield nothing. */
  function Collect<T>(keys: seq<string>, read: string --> Option<T>): seq<T>
    requires forall k :: k in keys ==> read.requires(k)
  {
    if keys == [] then []
    else
      var p := keys[..|keys| - 1];
      var k := keys[|keys| - 1];
      assert keys == p + [k];
      var rest := Collect(p, read);
      match read(k)
      case None => rest
      case Some(v) => rest + [v]
  }

  lemma {:induction false} CollectMembers<T>(keys: seq<string>, read: string --> Option<T>)
    requires forall k :: k in keys ==> read.requires(k)
    ensures |Collect(keys, read)| <= |keys|
    ensures forall v :: v in Collect(keys, read) <==> exists k :: k in keys && read(k) == Some(v)
  {
    if keys != [] {
      var p := keys[..|keys| - 1];
      assert keys == p + [keys[|keys| - 1]];
      CollectMembers(p, read);
    }
  }

  /** The positions of the keys `read` yields a value for, in increasing order. */
  function Hits<T>(keys: seq<string>, read: string --> Option<T>): seq<nat>
    requires forall k :: k in keys ==> read.requires(k)
  {
    if keys == [] then []
    else
      var p := keys[..|keys| - 1];
      assert keys == p + [keys[|keys| - 1]];
      var rest := Hits(p, read);
      if read(keys[|keys| - 1]).Some? then rest + [|keys| - 1] else rest
  }

  /**
   `Collect` gives one value per key that yields one, in key order: its
   `i`-th value is what the key at the `i`-th hit position yields, the
   positions increase, and they are exactly the keys that yield a value.
   */
  lemma {:induction false} CollectHits<T>(keys: seq<string>, read: string --> Option<T>)
    requires forall k :: k in keys ==> read.requires(k)
    ensures var r := Collect(keys, read); var h := Hits(keys, read);
      && |r| == |h|
      && (forall i :: 0 <= i < |h| ==> h[i] < |keys| && read(keys[h[i]]) == Some(r[i]))
      && (forall i, j :: 0 <= i < j < |h| ==> h[i] < h[j])
      && (forall j :: 0 <= j < |keys| ==> (j in h <==> read(keys[j]).Some?))
  {
    if keys != [] {
      var p := keys[..|keys| - 1];
      var n := |keys| - 1;
      assert keys == p + [keys[n]];
      CollectHits(p, read);
      var hp := Hits(p, read);
      forall i | 0 <= i < |hp|
        ensures keys[hp[i]] == p[hp[i]]
      {
      }
      forall j | 0 <= j < n
        ensures keys[j] == p[j]
      {
      }
    }
  }

  /** One posted key read as a line. */
  function ReadLine(f: Form): string --> Option<RawLine> {
    k requires k in f.fields => LineFor(f, k)
  }

  function ExtractFrom(f: Form, keys: seq<string>): seq<RawLine>
    requires forall k :: k in keys ==> k in f.fields
  {
    Collect(keys, ReadLine(f))
  }

  /**
   The submitted lines, in posting order: exactly the lines `LineFor` keeps,
   so every kept line has a positive quantity.
   */
  function ExtractLines(f: Form): (r: seq<RawLine>)
    requires WellFormedForm(f)
    ensures |r| <= |f.keys|
    ensures forall l :: l in r <==> exists k :: k in f.keys && LineFor(f, k) == Some(l)
    ensures forall l :: l in r ==> l.quantity > 0
  {
    CollectMembers(f.keys, ReadLine(f));
    ExtractFrom(f, f.keys)
  }

  /** The positions in posting order of the keys that give a line. */
  function LinePositions(f: Form): seq<nat>
    requires WellFormedForm(f)
  {
    Hits(f.keys, ReadLine(f))
  }

  /**
   The lines come one per line-giving key, in posting order: the `i`-th line
   is what the key at the `i`-th position gives, the positions increase, and
   a key's position is listed exactly when the key gives a line.
   */
  lemma ExtractLinesOrder(f: Form)
    requires WellFormedForm(f)
    ensures var r := ExtractLines(f); var pos := LinePositions(f);
      && |r| == |pos|
      && (forall i :: 0 <= i < |pos| ==> pos[i] < |f.keys| && LineFor(f, f.keys[pos[i]]) == Some(r[i]))
      && (forall i, j :: 0 <= i < j < |pos| ==> pos[i] < pos[j])
      && (forall j :: 0 <= j < |f.keys| ==> (j in pos <==> LineFor(f, f.keys[j]).Some?))
  {
    CollectHits(f.keys, ReadLine(f));
  }

  /** The field names a menu page posts for its `i`-th line. */
  function ItemKey(i: nat): string { ItemPrefix + NatText(i) }
  function QuantityKey(i: nat): string { "quantity_" + NatText(i) }
  function NotesKey(i: nat): string { "notes_" + NatText(i) }

  /** The keys of `n` posted lines, three per line, in page order. */
  function LineKeys(n: nat): seq<string> {
    if n == 0 then [] else LineKeys(n - 1) + [ItemKey(n - 1), QuantityKey(n - 1), NotesKey(n - 1)]
  }

  /** The values posted for some lines: each id and quantity printed in decimal, each note as typed. */
  function LineFields(lines: seq<RawLine>): map<string, string> {
    if lines == [] then map[]
    else
      var n := |lines| - 1;
      var l := lines[n];
      LineFields(lines[..n])[ItemKey(n) := IntText(l.id)][QuantityKey(n) := IntText(l.quantity)][NotesKey(n) := l.notes]
  }

  /** The form a page with one row per line posts when every row is filled in. */
  function PostLines(lines: seq<RawLine>): Form {
    Form(LineKeys(|lines|), LineFields(lines))
  }

  /** Field names of different lines differ, and the three kinds never coincide. */
  lemma KeysDiffer(i: nat, j: nat)
    ensures ItemKey(i) != QuantityKey(j) && ItemKey(i) != NotesKey(j) && QuantityKey(i) != NotesKey(j)
    ensures QuantityKey(i) != ItemKey(j) && NotesKey(i) != ItemKey(j) && NotesKey(i) != QuantityKey(j)
    ensures i != j ==> ItemKey(i) != ItemKey(j) && QuantityKey(i) != QuantityKey(j) && NotesKey(i) != NotesKey(j)
  {
    assert ItemKey(i)[0] == 'i' && QuantityKey(i)[0] == 'q' && NotesKey(i)[0] == 'n';
    assert ItemKey(j)[0] == 'i' && QuantityKey(j)[0] == 'q' && NotesKey(j)[0] == 'n';
    if i != j {
      NatTextValue(i);
      NatTextValue(j);
      assert ItemKey(i)[|ItemPrefix|..] == NatText(i) && ItemKey(j)[|ItemPrefix|..] == NatText(j);
      assert QuantityKey(i)[9..] == NatText(i) && QuantityKey(j)[9..] == NatText(j);
      assert NotesKey(i)[6..] == NatText(i) && NotesKey(j)[6..] == NatText(j);
    }
  }

  lemma {:induction false} LaterKeysAbsent(n: nat, j: nat)
    requires n <= j
    ensures ItemKey(j) !in LineKeys(n) && QuantityKey(j) !in LineKeys(n) && NotesKey(j) !in LineKeys(n)
  {
    if n > 0 {
      var ks := LineKeys(n - 1);
      var last := [ItemKey(n - 1), QuantityKey(n - 1), NotesKey(n - 1)];
      assert LineKeys(n) == ks + last;
      assert ItemKey(j) !in ks && QuantityKey(j) !in ks && NotesKey(j) !in ks by {
        LaterKeysAbsent(n - 1, j);
      }
      assert ItemKey(j) !in last && QuantityKey(j) !in last && NotesKey(j) !in last by {
        KeysDiffer(n - 1, j);
      }
    }
  }

  lemma {:induction false} LineKeysDistinct(n: nat)
    ensures forall i, j :: 0 <= i < j < |LineKeys(n)| ==> LineKeys(n)[i] != LineKeys(n)[j]
  {
    if n > 0 {
      LineKeysDistinct(n - 1);
      LaterKeysAbsent(n - 1, n - 1);
      KeysDiffer(n - 1, n - 1);
    }
  }

  lemma {:induction false} LineFieldsCover(lines: seq<RawLine>)
    ensures forall k :: k in LineKeys(|lines|) <==> k in LineFields(lines)
  {
    if lines != [] {
      LineFieldsCover(lines[..|lines| - 1]);
    }
  }

  /** Each line's three fields hold what was posted for it. */
  lemma {:induction false} LineFieldsHold(lines: seq<RawLine>, j: nat)
    requires j < |lines|
    ensures ItemKey(j) in LineFields(lines) && LineFields(lines)[ItemKey(j)] == IntText(lines[j].id)
    ensures QuantityKey(j) in LineFields(lines) && LineFields(lines)[QuantityKey(j)] == IntText(lines[j].quantity)
    ensures NotesKey(j) in LineFields(lines) && LineFields(lines)[NotesKey(j)] == lines[j].notes
  {
    var n := |lines| - 1;
    if j < n {
      var l := lines[n];
      var m := LineFields(lines[..n]);
      assert LineFields(lines) == m[ItemKey(n) := IntText(l.id)][QuantityKey(n) := IntText(l.quantity)][NotesKey(n) := l.notes];
      assert lines[..n][j] == lines[j];
      LineFieldsHold(lines[..n], j);
      KeysDiffer(j, n);
    }
  }

  lemma PostLinesWellFormed(lines: seq<RawLine>)
    ensures WellFormedForm(PostLines(lines))
  {
    LineFieldsCover(lines);
    LineKeysDistinct(|lines|);
  }

  /**
   Whether a posted line survives being read back: its quantity is
   positive and its id and quantity print with few enough digits for `int()`.
   */
  predicate ReadsBack(l: RawLine) {
    l.quantity > 0 && FitsStrDigits(l.id) && FitsStrDigits(l.quantity)
  }

  /** The elements of `s` that satisfy `p`, in order. */
  function Keep<T>(s: seq<T>, p: T -> bool): seq<T> {
    if s == [] then []
    else Keep(s[..|s| - 1], p) + (if p(s[|s| - 1]) then [s[|s| - 1]] else [])
  }

  lemma {:induction false} KeepAll<T>(s: seq<T>, p: T -> bool)
    requires forall i :: 0 <= i < |s| ==> p(s[i])
    ensures Keep(s, p) == s
  {
    if s != [] {
      KeepAll(s[..|s| - 1], p);
    }
  }

  /** A posted item key reads back as its line exactly when the line survives posting. */
  lemma PostedLineReadsBack(f: Form, j: nat, l: RawLine)
    requires ItemKey(j) in f.fields && f.fields[ItemKey(j)] == IntText(l.id)
    requires QuantityKey(j) in f.fields && f.fields[QuantityKey(j)] == IntText(l.quantity)
    requires NotesKey(j) in f.fields && f.fields[NotesKey(j)] == l.notes
    ensures LineFor(f, ItemKey(j)) == if ReadsBack(l) then Some(l) else None
  {
    assert ItemKey(j)[..|ItemPrefix|] == ItemPrefix;
    assert ItemKey(j)[|ItemPrefix|..] == NatText(j);
    ParseIntText(l.id);
    ParseIntText(l.quantity);
  }

  /** The quantity and notes keys never yield a line. */
  lemma OtherKeysSkipped(f: Form, j: nat)
    requires QuantityKey(j) in f.fields && NotesKey(j) in f.fields
    ensures LineFor(f, QuantityKey(j)) == None && LineFor(f, NotesKey(j)) == None
  {
    assert QuantityKey(j)[0] == 'q' && NotesKey(j)[0] == 'n' && ItemPrefix[0] == 'i';
  }

  /** One more key adds what it yields, if anything, at the end. */
  lemma CollectSnoc<T>(keys: seq<string>, k: string, read: string --> Option<T>)
    requires forall k' :: k' in keys + [k] ==> read.requires(k')
    ensures Collect(keys + [k], read) == Collect(keys, read) + (if read(k).Some? then [read(k).value] else [])
  {
    assert (keys + [k])[..|keys|] == keys;
  }

  /** Walking the keys of `m` lines block by block collects the value of each block that yields one, in order. */
  lemma {:induction false} CollectBlocks<T>(read: string --> Option<T>, vs: seq<T>, keep: T -> bool, m: nat)
    requires m <= |vs|
    requires forall j :: 0 <= j < |vs| ==>
      read.requires(ItemKey(j)) && read.requires(QuantityKey(j)) && read.requires(NotesKey(j))
    requires forall j :: 0 <= j < |vs| ==>
      && read(ItemKey(j)) == (if keep(vs[j]) then Some(vs[j]) else None)
      && read(QuantityKey(j)) == None && read(NotesKey(j)) == None
    ensures forall k :: k in LineKeys(m) ==> read.requires(k)
    ensures Collect(LineKeys(m), read) == Keep(vs[..m], keep)
  {
    if m > 0 {
      var ks := LineKeys(m - 1);
      var a, b, c := ItemKey(m - 1), QuantityKey(m - 1), NotesKey(m - 1);
      CollectBlocks(read, vs, keep, m - 1);
      assert LineKeys(m) == ((ks + [a]) + [b]) + [c];
      CollectSnoc(ks, a, read);
      CollectSnoc(ks + [a], b, read);
      CollectSnoc((ks + [a]) + [b], c, read);
      assert vs[..m][..m - 1] == vs[..m - 1];
    }
  }

  /**
   Reading a posted form back gives exactly the posted lines that survive
   posting, in order: a line is lost only when its quantity is not positive
   or its id or quantity has more digits than `int()` reads, and nothing is
   invented. When every line survives, the round trip is the identity.
   */
  lemma ExtractLinesRoundTrip(lines: seq<RawLine>)
    ensures WellFormedForm(PostLines(lines))
    ensures ExtractLines(PostLines(lines)) == Keep(lines, ReadsBack)
    ensures (forall i :: 0 <= i < |lines| ==> ReadsBack(lines[i])) ==> ExtractLines(PostLines(lines)) == lines
  {
    PostLinesWellFormed(lines);
    var f := PostLines(lines);
    var read := ReadLine(f);
    forall j | 0 <= j < |lines|
      ensures read.requires(ItemKey(j)) && read.requires(QuantityKey(j)) && read.requires(NotesKey(j))
      ensures read(ItemKey(j)) == (if ReadsBack(lines[j]) then Some(lines[j]) else None)
      ensures read(QuantityKey(j)) == None && read(NotesKey(j)) == None
    {
      LineFieldsHold(lines, j);
      PostedLineReadsBack(f, j, lines[j]);
      OtherKeysSkipped(f, j);
    }
    CollectBlocks(read, lines, ReadsBack, |lines|);
    assert lines[..|lines|] == lines;
    if forall i :: 0 <= i < |lines| ==> ReadsBack(lines[i]) {
      KeepAll(lines, ReadsBack);
    }
  }

  predicate HasMenuItem(st: Store, id: int) {
    1 <= id <= |st.menu|
  }

  /** The line items an order gets for some submitted lines. */
  function ItemsFor(order: Id, lines: seq<RawLine>): (r: seq<OrderItem>)
    requires forall i :: 0 <= i < |lines| ==> lines[i].id >= 0
    ensures |r| == |lines|
    ensures forall i :: 0 <= i < |r| ==> r[i] == OrderItem(order, lines[i].id, lines[i].quantity, lines[i].notes)
  {
    seq(|lines|, i requires 0 <= i < |lines| => OrderItem(order, lines[i].id, lines[i].quantity, lines[i].notes))
  }

  /** How many lines, from the front, name an existing menu item. */
  function ExistingPrefix(st: Store, lines: seq<RawLine>): (n: nat)
    ensures n <= |lines|
    ensures forall i :: 0 <= i < n ==> HasMenuItem(st, lines[i].id)
    ensures n < |lines| ==> !HasMenuItem(st, lines[n].id)
  {
    if lines == [] || !HasMenuItem(st, lines[0].id) then 0
    else 1 + ExistingPrefix(st, lines[1..])
  }

  /**
   Writes a line item per submitted line, in order, looking each menu item up
   first; the first missing menu item stops the loop with the earlier items
   already written. Reports whether every line was written.
   */
  function AddItems(st: Store, order: Id, lines: seq<RawLine>): (out: (Store, bool))
    decreases |lines|
  {
    if lines == [] then (st, true)
    else if !HasMenuItem(st, lines[0].id) then (st, false)
    else
      var l := lines[0];
      AddItems(st.(items := st.items + [OrderItem(order, l.id, l.quantity, l.notes)]), order, lines[1..])
  }

  /** The loop succeeds iff every line names an existing menu item. */
  lemma {:induction false} AddItemsComplete(st: Store, order: Id, lines: seq<RawLine>)
    ensures AddItems(st, order, lines).1 <==> ExistingPrefix(st, lines) == |lines|
    decreases |lines|
  {
    if lines != [] && HasMenuItem(st, lines[0].id) {
      var l := lines[0];
      var st1 := st.(items := st.items + [OrderItem(order, l.id, l.quantity, l.notes)]);
      ExistingPrefixSameMenu(st, st1, lines[1..]);
      AddItemsComplete(st1, order, lines[1..]);
    }
  }

  /** The loop changes only the line items. */
  lemma {:induction false} AddItemsFrame(st: Store, order: Id, lines: seq<RawLine>)
    ensures AddItems(st, order, lines).0 == st.(items := AddItems(st, order, lines).0.items)
    decreases |lines|
  {
    if lines != [] && HasMenuItem(st, lines[0].id) {
      var l := lines[0];
      AddItemsFrame(st.(items := st.items + [OrderItem(order, l.id, l.quantity, l.notes)]), order, lines[1..]);
    }
  }

  /** The loop writes the items of the lines before the first missing menu item, in order. */
  lemma {:induction false} AddItemsEffect(st: Store, order: Id, lines: seq<RawLine>)
    ensures var n := ExistingPrefix(st, lines);
      && (forall i :: 0 <= i < n ==> lines[i].id >= 0)
      && AddItems(st, order, lines).0.items == st.items + ItemsFor(order, lines[..n])
    decreases |lines|
  {
    if lines == [] {
    } else if !HasMenuItem(st, lines[0].id) {
      assert lines[..0] == [];
    } else {
      var l := lines[0];
      var it := OrderItem(order, l.id, l.quantity, l.notes);
      var st1 := st.(items := st.items + [it]);
      var n := ExistingPrefix(st, lines);
      assert ExistingPrefix(st1, lines[1..]) == n - 1 by {
        ExistingPrefixSameMenu(st, st1, lines[1..]);
      }
      AddItemsEffect(st1, order, lines[1..]);
      var rest := ItemsFor(order, lines[1..][..n - 1]);
      assert (st.items + [it]) + rest == st.items + ([it] + rest);
      ItemsForCons(order, lines, n);
    }
  }

  /** The items of a non-empty prefix of lines: the first line's item, then the rest's. */
  lemma ItemsForCons(order: Id, lines: seq<RawLine>, n: nat)
    requires 0 < n <= |lines|
    requires forall i :: 0 <= i < n ==> lines[i].id >= 0
    ensures [OrderItem(order, lines[0].id, lines[0].quantity, lines[0].notes)] + ItemsFor(order, lines[1..][..n - 1])
            == ItemsFor(order, lines[..n])
  {
    var l := lines[0];
    var a := [OrderItem(order, l.id, l.quantity, l.notes)] + ItemsFor(order, lines[1..][..n - 1]);
    var b := ItemsFor(order, lines[..n]);
    assert |a| == |b|;
    forall i | 0 <= i < |a|
      ensures a[i] == b[i]
    {
      if i > 0 {
        assert lines[1..][..n - 1][i - 1] == lines[i];
      }
    }
  }

  lemma {:induction false} ExistingPrefixSameMenu(st: Store, st': Store, lines: seq<RawLine>)
    requires st'.menu == st.menu
    ensures ExistingPrefix(st', lines) == ExistingPrefix(st, lines)
  {
    if lines != [] && HasMenuItem(st, lines[0].id) {
      ExistingPrefixSameMenu(st, st', lines[1..]);
    }
  }

  lemma {:induction false} AddItemsValid(st: Store, order: Id, lines: seq<RawLine>)
    requires Valid(st) && IsOrder(st, order)
    ensures Valid(AddItems(st, order, lines).0)
    decreases |lines|
  {
    if lines != [] && HasMenuItem(st, lines[0].id) {
      var l := lines[0];
      var it := OrderItem(order, l.id, l.quantity, l.notes);
      AddItemValid(st, it);
      AddItemsValid(st.(items := st.items + [it]), order, lines[1..]);
    }
  }

  lemma AddOrderValid(st: Store, o: Order)
    requires Valid(st) && OrderOk(st, o)
    ensures Valid(st.(orders := st.orders + [o]))
  {
    var st' := st.(orders := st.orders + [o]);
    assert forall i :: 0 <= i < |st'.orders| ==> OrderOk(st', st'.orders[i]) by {
      forall i | 0 <= i < |st'.orders|
        ensures OrderOk(st', st'.orders[i])
      {
        if i < |st.orders| {
          assert OrderOk(st, st.orders[i]);
        }
      }
    }
    assert forall i :: 0 <= i < |st'.items| ==> ItemOk(st', st'.items[i]) by {
      forall i | 0 <= i < |st'.items|
        ensures ItemOk(st', st'.items[i])
      {
        assert ItemOk(st, st.items[i]);
      }
    }
  }

  /** Setting a flag of a table keeps every invariant: numbers and row count are unchanged. */
  lemma SetAvailabilityValid(st: Store, table: Id, available: bool)
    requires Valid(st) && IsTable(st, table)
    ensures Valid(st.(tables := st.tables[table - 1 := st.tables[table - 1].(isAvailable := available)]))
  {
    var st' := st.(tables := st.tables[table - 1 := st.tables[table - 1].(isAvailable := available)]);
    assert forall i :: 0 <= i < |st'.orders| ==> OrderOk(st', st'.orders[i]) by {
      forall i | 0 <= i < |st'.orders|
        ensures OrderOk(st', st'.orders[i])
      {
        assert OrderOk(st, st.orders[i]);
      }
    }
    assert forall i :: 0 <= i < |st'.items| ==> ItemOk(st', st'.items[i]) by {
      forall i | 0 <= i < |st'.items|
        ensures ItemOk(st', st'.items[i])
      {
        assert ItemOk(st, st.items[i]);
      }
    }
    assert forall i :: 0 <= i < |st'.pins| ==> PinOk(st', st'.pins[i]) by {
      forall i | 0 <= i < |st'.pins|
        ensures PinOk(st', st'.pins[i])
      {
        assert PinOk(st, st.pins[i]);
      }
    }
  }

  /** The audit details of a new order. */
  function OrderDetails(order: Id, tableNumber: int): string {
    "Pedido " + IntText(order) + " para mesa " + IntText(tableNumber)
  }

  /**
   Creates the order, then its line items one by one; when every menu item
   exists, also marks the table occupied and logs the order. A missing menu
   item ends the request with a 404 and leaves what was written in place.
   */
  function PlaceOrder(st: Store, caller: Id, table: Id, notes: string, lines: seq<RawLine>, now: int): (out: Step<()>)
    requires Valid(st) && IsUser(st, caller) && IsTable(st, table)
    ensures Valid(out.store)
    ensures out.reply == Ok(()) || out.reply == Fail(NotFound)
    ensures out.reply.Ok? <==> ExistingPrefix(st, lines) == |lines|
    ensures var id := |st.orders| + 1; var n := ExistingPrefix(st, lines);
      && (forall i :: 0 <= i < n ==> lines[i].id >= 0)
      && out.store.orders == st.orders + [NewOrder(table, caller, notes, now)]
      && out.store.items == st.items + ItemsFor(id, lines[..n])
      && out.store.users == st.users && out.store.profiles == st.profiles
      && out.store.menu == st.menu && out.store.pins == st.pins
    ensures out.reply.Fail? ==> out.store.tables == st.tables && out.store.audit == st.audit
    ensures out.reply.Ok? ==>
      && out.store.tables == st.tables[table - 1 := st.tables[table - 1].(isAvailable := false)]
      && out.store.audit == st.audit + [AuditEntry(caller, "Crear pedido", now, OrderDetails(|st.orders| + 1, st.tables[table - 1].number))]
  {
    var id := |st.orders| + 1;
    var st1 := st.(orders := st.orders + [NewOrder(table, caller, notes, now)]);
    AddOrderValid(st, NewOrder(table, caller, notes, now));
    ExistingPrefixSameMenu(st, st1, lines);
    var (st2, complete) := AddItems(st1, id, lines);
    AddItemsEffect(st1, id, lines);
    AddItemsFrame(st1, id, lines);
    AddItemsComplete(st1, id, lines);
    AddItemsValid(st1, id, lines);
    if !complete then Step(st2, Fail(NotFound))
    else
      var t := st.tables[table - 1];
      var st3 := st2.(tables := st2.tables[table - 1 := t.(isAvailable := false)]);
      SetAvailabilityValid(st2, table, false);
      LogValid(st3, caller, "Crear pedido", OrderDetails(id, t.number), now);
      Step(Log(st3, caller, "Crear pedido", OrderDetails(id, t.number), now), Ok(()))
  }

  const NoItemsMessage: string := "No hay \U{ED}tems en el pedido"

  /**
   The order submission as written: a 403 for callers who do not serve
   tables, a 405 for anything but POST, a 400 when no line survives
   extraction, a 404 for an unknown table, and otherwise `PlaceOrder`,
   including its partial write when a menu item is missing.
   */
  function SendOrder(st: Store, caller: Id, verb: Method, form: Form, table: Id, now: int): (out: Step<()>)
    requires Valid(st) && IsUser(st, caller) && WellFormedForm(form)
    ensures Valid(out.store)
    ensures !ServesTables(RoleOf(st, caller)) ==> out == Step(st, Fail(Forbidden))
    ensures ServesTables(RoleOf(st, caller)) && verb != Post ==> out == Step(st, Fail(MethodNotAllowed))
    ensures (ServesTables(RoleOf(st, caller)) && verb == Post && ExtractLines(form) == [])
            ==> out == Step(st, Fail(BadRequest(NoItemsMessage)))
    ensures (ServesTables(RoleOf(st, caller)) && verb == Post && ExtractLines(form) != [] && !IsTable(st, table))
            ==> out == Step(st, Fail(NotFound))
    ensures out.reply.Ok? <==>
      && ServesTables(RoleOf(st, caller)) && verb == Post && ExtractLines(form) != [] && IsTable(st, table)
      && (forall i :: 0 <= i < |ExtractLines(form)| ==> HasMenuItem(st, ExtractLines(form)[i].id))
  {
    if !ServesTables(RoleOf(st, caller)) then Step(st, Fail(Forbidden))
    else if verb != Post then Step(st, Fail(MethodNotAllowed))
    else
      var lines := ExtractLines(form);
      if lines == [] then Step(st, Fail(BadRequest(NoItemsMessage)))
      else if !IsTable(st, table) then Step(st, Fail(NotFound))
      else PlaceOrder(st, caller, table, FieldOr(form, "order_notes", ""), lines, now)
  }

  /** One more item of the same order extends its line items by that item. */
  lemma ItemsOfOwnStep(items: seq<OrderItem>, extra: seq<OrderItem>, last: OrderItem, order: Id)
    requires ItemsOf(items + extra, order) == ItemsOf(items, order) + extra
    requires last.order == order
    ensures ItemsOf(items + (extra + [last]), order) == ItemsOf(items, order) + (extra + [last])
  {
    assert items + (extra + [last]) == (items + extra) + [last];
    ItemsOfAppend(items + extra, last, order);
  }

  /** Items appended for one order extend that order's line items by exactly those items. */
  lemma {:induction false} ItemsOfAppendOwn(items: seq<OrderItem>, extra: seq<OrderItem>, order: Id)
    requires forall i :: 0 <= i < |extra| ==> extra[i].order == order
    ensures ItemsOf(items + extra, order) == ItemsOf(items, order) + extra
    decreases |extra|
  {
    if extra == [] {
      assert items + extra == items;
    } else {
      var e' := extra[..|extra| - 1];
      var last := extra[|extra| - 1];
      assert extra == e' + [last];
      assert forall i :: 0 <= i < |e'| ==> e'[i].order == order by {
        forall i | 0 <= i < |e'|
          ensures e'[i].order == order
        {
          assert e'[i] == extra[i];
        }
      }
      ItemsOfAppendOwn(items, e', order);
      ItemsOfOwnStep(items, e', last, order);
    }
  }

  /** Items appended for one order leave every other order's line items alone. */
  lemma {:induction false} ItemsOfAppendOther(items: seq<OrderItem>, extra: seq<OrderItem>, order: Id, o: Id)
    requires forall i :: 0 <= i < |extra| ==> extra[i].order == order
    requires o != order
    ensures ItemsOf(items + extra, o) == ItemsOf(items, o)
    decreases |extra|
  {
    if extra == [] {
      assert items + extra == items;
    } else {
      var e' := extra[..|extra| - 1];
      var last := extra[|extra| - 1];
      assert ItemsOf(items + e', o) == ItemsOf(items, o) by {
        ItemsOfAppendOther(items, e', order, o);
      }
      assert items + extra == (items + e') + [last];
      ItemsOfAppend(items + e', last, o);
    }
  }



  predicate LineRefsOk(menu: seq<MenuItem>, lines: seq<RawLine>) {
    forall i :: 0 <= i < |lines| ==> 1 <= lines[i].id <= |menu|
  }

  /** What some submitted lines cost at the menu's prices, in cents. */
  function LinesTotal(menu: seq<MenuItem>, lines: seq<RawLine>): int
    requires LineRefsOk(menu, lines)
  {
    if lines == [] then 0
    else
      var l := lines[|lines| - 1];
      LinesTotal(menu, lines[..|lines| - 1]) + l.quantity * menu[l.id - 1].price
  }

  lemma {:induction false} ItemsForTotal(menu: seq<MenuItem>, order: Id, lines: seq<RawLine>)
    requires LineRefsOk(menu, lines)
    ensures ItemRefsOk(menu, ItemsFor(order, lines))
    ensures ItemsTotal(menu, ItemsFor(order, lines)) == LinesTotal(menu, lines)
    decreases |lines|
  {
    if lines != [] {
      var p := lines[..|lines| - 1];
      assert ItemsFor(order, lines)[..|lines| - 1] == ItemsFor(order, p);
      ItemsForTotal(menu, order, p);
    }
  }

  /** Every order has at least one line item. */
  predicate EveryOrderHasItems(st: Store) {
    forall id: Id :: 1 <= id <= |st.orders| ==> ItemsOf(st.items, id) != []
  }

  /** The new order's line items are exactly the submitted lines; no other order's items change. */
  lemma PlacedItems(st: Store, id: Id, extra: seq<OrderItem>)
    requires Valid(st) && id == |st.orders| + 1
    requires forall i :: 0 <= i < |extra| ==> extra[i].order == id
    ensures forall o :: ItemsOf(st.items + extra, o) == if o == id then extra else ItemsOf(st.items, o)
  {
    assert ItemsOf(st.items, id) == [] by {
      forall i | 0 <= i < |st.items|
        ensures st.items[i].order != id
      {
        assert ItemOk(st, st.items[i]);
      }
      ItemsOfNone(st.items, id);
    }
    forall o
      ensures ItemsOf(st.items + extra, o) == if o == id then extra else ItemsOf(st.items, o)
    {
      if o == id {
        ItemsOfAppendOwn(st.items, extra, id);
      } else {
        ItemsOfAppendOther(st.items, extra, id, o);
      }
    }
  }

  /**
   A waiter's or admin's POST of at least one line, for an existing table and
   naming only existing menu items, succeeds: it adds one order, with one line
   item per submitted line, leaves every other order's items alone, marks the
   table occupied and logs the order.
   */
  lemma SendOrderEffect(st: Store, caller: Id, form: Form, table: Id, now: int)
    requires Valid(st) && IsUser(st, caller) && WellFormedForm(form)
    requires ServesTables(RoleOf(st, caller)) && IsTable(st, table) && ExtractLines(form) != []
    requires forall l :: l in ExtractLines(form) ==> HasMenuItem(st, l.id)
    ensures var out := SendOrder(st, caller, Post, form, table, now);
      var id := |st.orders| + 1; var lines := ExtractLines(form);
      && out.reply.Ok? && IsOrder(out.store, id) && IsTable(st, table)
      && out.store.orders == st.orders + [NewOrder(table, caller, FieldOr(form, "order_notes", ""), now)]
      && LineRefsOk(st.menu, lines)
      && ItemsOf(out.store.items, id) == ItemsFor(id, lines)
      && (forall o :: o != id ==> ItemsOf(out.store.items, o) == ItemsOf(st.items, o))
      && out.store.tables == st.tables[table - 1 := st.tables[table - 1].(isAvailable := false)]
      && out.store.audit == st.audit + [AuditEntry(caller, "Crear pedido", now, OrderDetails(id, st.tables[table - 1].number))]
  {
    var id := |st.orders| + 1;
    var lines := ExtractLines(form);
    var notes := FieldOr(form, "order_notes", "");
    var out := PlaceOrder(st, caller, table, notes, lines, now);
    assert forall i :: 0 <= i < |lines| ==> HasMenuItem(st, lines[i].id) by {
      forall i | 0 <= i < |lines| ensures HasMenuItem(st, lines[i].id) {
        assert lines[i] in lines;
      }
    }
    assert SendOrder(st, caller, Post, form, table, now) == out;
    assert ExistingPrefix(st, lines) == |lines|;
    assert lines[..|lines|] == lines;
    var extra := ItemsFor(id, lines);
    assert out.store.items == st.items + extra;
    PlacedItems(st, id, extra);
  }

  /** A successful submission's order totals the submitted lines at the menu's prices. */
  lemma SendOrderTotal(st: Store, caller: Id, form: Form, table: Id, now: int)
    requires Valid(st) && IsUser(st, caller) && WellFormedForm(form)
    requires ServesTables(RoleOf(st, caller)) && IsTable(st, table) && ExtractLines(form) != []
    requires forall l :: l in ExtractLines(form) ==> HasMenuItem(st, l.id)
    ensures var out := SendOrder(st, caller, Post, form, table, now);
      && IsOrder(out.store, |st.orders| + 1) && LineRefsOk(st.menu, ExtractLines(form))
      && CalculateTotal(out.store, |st.orders| + 1) == LinesTotal(st.menu, ExtractLines(form))
  {
    var out := SendOrder(st, caller, Post, form, table, now);
    var id := |st.orders| + 1;
    var lines := ExtractLines(form);
    SendOrderEffect(st, caller, form, table, now);
    assert out.store.menu == st.menu;
    ItemsForTotal(st.menu, id, lines);
  }

  /**
   As written, a submission whose lines name a missing menu item answers 404
   yet leaves the new order, and one line item for each line before the
   first missing menu item, in the store; the table stays as it was and
   nothing is logged.
   */
  lemma SendOrderPartialWrite(st: Store, caller: Id, form: Form, table: Id, now: int, k: nat)
    requires Valid(st) && IsUser(st, caller) && WellFormedForm(form)
    requires ServesTables(RoleOf(st, caller)) && IsTable(st, table)
    requires k < |ExtractLines(form)| && !HasMenuItem(st, ExtractLines(form)[k].id)
    ensures var out := SendOrder(st, caller, Post, form, table, now);
      && out.reply == Fail(NotFound)
      && out.store != st
      && out.store.orders == st.orders + [NewOrder(table, caller, FieldOr(form, "order_notes", ""), now)]
      && out.store.tables == st.tables && out.store.audit == st.audit
    ensures var out := SendOrder(st, caller, Post, form, table, now);
      var lines := ExtractLines(form); var n := ExistingPrefix(st, lines);
      && n <= k
      && out.store.items == st.items + ItemsFor(|st.orders| + 1, lines[..n])
  {
    var out := SendOrder(st, caller, Post, form, table, now);
    assert |out.store.orders| == |st.orders| + 1;
  }

  /**
   As written, when the first submitted line names a missing menu item the
   request fails but leaves an order with no line items.
   */
  lemma SendOrderLeavesEmptyOrder(st: Store, caller: Id, form: Form, table: Id, now: int)
    requires Valid(st) && IsUser(st, caller) && WellFormedForm(form)
    requires ServesTables(RoleOf(st, caller)) && IsTable(st, table)
    requires ExtractLines(form) != [] && !HasMenuItem(st, ExtractLines(form)[0].id)
    ensures var out := SendOrder(st, caller, Post, form, table, now);
      && out.reply == Fail(NotFound)
      && IsOrder(out.store, |st.orders| + 1)
      && ItemsOf(out.store.items, |st.orders| + 1) == []
      && !EveryOrderHasItems(out.store)
  {
    var out := SendOrder(st, caller, Post, form, table, now);
    var id := |st.orders| + 1;
    assert ExistingPrefix(st, ExtractLines(form)) == 0;
    assert out.store.items == st.items;
    forall i | 0 <= i < |st.items|
      ensures st.items[i].order != id
    {
      assert ItemOk(st, st.items[i]);
    }
    ItemsOfNone(st.items, id);
    assert IsOrder(out.store, id);
  }

  /**
   The submission with every menu item looked up before anything is
   written: it fails with the same responses as `SendOrder`, but a failure
   leaves the store as it was.
   */
  function SendOrderAtomic(st: Store, caller: Id, verb: Method, form: Form, table: Id, now: int): (out: Step<()>)
    requires Valid(st) && IsUser(st, caller) && WellFormedForm(form)
    ensures Valid(out.store)
    ensures out.reply.Fail? ==> out.store == st
    ensures out.reply == SendOrder(st, caller, verb, form, table, now).reply
    ensures out.reply.Ok? ==> out == SendOrder(st, caller, verb, form, table, now)
  {
    if !ServesTables(RoleOf(st, caller)) then Step(st, Fail(Forbidden))
    else if verb != Post then Step(st, Fail(MethodNotAllowed))
    else
      var lines := ExtractLines(form);
      if lines == [] then Step(st, Fail(BadRequest(NoItemsMessage)))
      else if !IsTable(st, table) then Step(st, Fail(NotFound))
      else if ExistingPrefix(st, lines) < |lines| then Step(st, Fail(NotFound))
      else PlaceOrder(st, caller, table, FieldOr(form, "order_notes", ""), lines, now)
  }

  /** With the atomic submission no request leaves an order without items. */
  lemma SendOrderAtomicKeepsItems(st: Store, caller: Id, verb: Method, form: Form, table: Id, now: int)
    requires Valid(st) && IsUser(st, caller) && WellFormedForm(form)
    requires EveryOrderHasItems(st)
    ensures EveryOrderHasItems(SendOrderAtomic(st, caller, verb, form, table, now).store)
  {
    var out := SendOrderAtomic(st, caller, verb, form, table, now);
    if out.reply.Ok? {
      var lines := ExtractLines(form);
      assert SendOrder(st, caller, verb, form, table, now).reply.Ok?;
      assert verb == Post;
      assert forall l :: l in lines ==> HasMenuItem(st, l.id) by {
        forall l | l in lines ensures HasMenuItem(st, l.id) {
          var i :| 0 <= i < |lines| && lines[i] == l;
        }
      }
      SendOrderEffect(st, caller, form, table, now);
      var id := |st.orders| + 1;
      forall o | IsOrder(out.store, o)
        ensures ItemsOf(out.store.items, o) != []
      {
        if o != id {
          assert IsOrder(st, o);
        }
      }
    }
  }

  /** The audit text for a table's new state. */
  function AvailabilityText(available: bool): string {
    if available then "disponible" else "ocupada"
  }

  /**
   Flips a table between free and occupied: a 403 for callers who do not
   serve tables, a 405 for anything but POST, a 404 for an unknown table;
   otherwise the flag is negated, the change logged, and the new value
   returned.
   */
  function ToggleTable(st: Store, caller: Id, verb: Method, table: Id, now: int): (out: Step<bool>)
    requires Valid(st) && IsUser(st, caller)
    ensures Valid(out.store)
    ensures out.reply.Fail? ==> out.store == st
    ensures !ServesTables(RoleOf(st, caller)) ==> out.reply == Fail(Forbidden)
    ensures ServesTables(RoleOf(st, caller)) && verb != Post ==> out.reply == Fail(MethodNotAllowed)
    ensures out.reply.Ok? <==> ServesTables(RoleOf(st, caller)) && verb == Post && IsTable(st, table)
    ensures out.reply.Fail? && out.reply.failure == NotFound ==> !IsTable(st, table)
    ensures out.reply.Ok? ==>
      var t := st.tables[table - 1];
      && out.reply.value == !t.isAvailable
      && out.store.tables == st.tables[table - 1 := t.(isAvailable := !t.isAvailable)]
      && out.store.audit == st.audit + [AuditEntry(caller, "Marcar mesa como " + AvailabilityText(!t.isAvailable), now,
                                                   "Mesa " + IntText(t.number) + " marcada como " + AvailabilityText(!t.isAvailable))]
      && out.store == st.(tables := out.store.tables, audit := out.store.audit)
  {
    if !ServesTables(RoleOf(st, caller)) then Step(st, Fail(Forbidden))
    else if verb != Post then Step(st, Fail(MethodNotAllowed))
    else if !IsTable(st, table) then Step(st, Fail(NotFound))
    else
      var t := st.tables[table - 1];
      var now_free := !t.isAvailable;
      var text := AvailabilityText(now_free);
      var st1 := st.(tables := st.tables[table - 1 := t.(isAvailable := now_free)]);
      SetAvailabilityValid(st, table, now_free);
      LogValid(st1, caller, "Marcar mesa como " + text, "Mesa " + IntText(t.number) + " marcada como " + text, now);
      Step(Log(st1, caller, "Marcar mesa como " + text, "Mesa " + IntText(t.number) + " marcada como " + text, now), Ok(now_free))
  }

  /**
   Toggling the same table twice restores every table and changes nothing
   but the audit log, which gains the two entries.
   */
  lemma ToggleTwiceRestores(st: Store, caller: Id, table: Id, now1: int, now2: int)
    requires Valid(st) && IsUser(st, caller)
    requires ToggleTable(st, caller, Post, table, now1).reply.Ok?
    ensures var mid := ToggleTable(st, caller, Post, table, now1);
      var last := ToggleTable(mid.store, caller, Post, table, now2);
      && last.reply == Ok(st.tables[table - 1].isAvailable)
      && last.store.tables == st.tables
      && |last.store.audit| == |st.audit| + 2
      && last.store == st.(audit := last.store.audit)
  {
    var mid := ToggleTable(st, caller, Post, table, now1);
    assert RoleOf(mid.store, caller) == RoleOf(st, caller);
    assert mid.store.tables[table - 1 := st.tables[table - 1]] == st.tables;
  }

  /** A store with one waiter, one free table and an empty menu. */
  function SampleStore(): (st: Store)
    ensures Valid(st)
  {
    Store([User("ana", false)], map[1 := UserProfile("garzon", "")], [Table(1, 4, true)], [], [], [], [], [])
  }

  /** A posted order of one line for menu item 7, which does not exist. */
  function SampleForm(): (f: Form)
    ensures WellFormedForm(f)
  {
    Form(["item_id_1"], map["item_id_1" := "7"])
  }

  /**
   The concrete case: the waiter submits a line for a missing menu item and
   gets a 404, yet order 1 is stored with no items and the table stays free.
   */
  lemma SendOrderSampleLeavesEmptyOrder()
    ensures var out := SendOrder(SampleStore(), 1, Post, SampleForm(), 1, 0);
      && out.reply == Fail(NotFound)
      && |out.store.orders| == 1
      && ItemsOf(out.store.items, 1) == []
      && out.store.tables[0].isAvailable
      && !EveryOrderHasItems(out.store)
  {
    var st := SampleStore();
    var f := SampleForm();
    ParseIntText(7);
    assert IntText(7) == "7";
    assert StartsWith("item_id_1", ItemPrefix);
    assert "item_id_1"[|ItemPrefix|..] == "1";
    assert "quantity_1" !in f.fields;
    assert LineFor(f, "item_id_1") == Some(RawLine(7, 1, ""));
    assert ExtractFrom(f, []) == [];
    assert ExtractLines(f) == [RawLine(7, 1, "")];
    SendOrderLeavesEmptyOrder(st, 1, f, 1, 0);
  }
}
