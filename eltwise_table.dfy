/** The constant table of the eltwise injector. `register_table_entries` inserts the
    constants an algorithm needs into the multimap `entry_map_` and gives every element
    its byte offset; `prepare_table` writes the values out, walking the map in the same
    order. The model proves that the walk and the offsets agree (the debug check of
    `prepare_table`), that every element's value sits at its offset in what is written,
    and that the elements of one key keep the order they were pushed in. */
module EltwiseTable {
  import opened EltwiseKinds

  /** A `table_t` element: the key (its position in the `key_t` enumeration), the
      32-bit value and whether it is broadcast to a whole vector. */
  datatype Entry = Entry(key: nat, val: bv32, bcast: bool)

  /** An element of `entry_map_`: the key and its `mapped_table_entry_t`. */
  datatype Mapped = Mapped(key: nat, off: nat, val: bv32, bcast: bool)

  /** The first three members of `key_t`. */
  const ScaleKey: nat := 0
  const AlphaKey: nat := 1
  const BetaKey: nat := 2

  /** `sizeof(table_entry_val_t)`. */
  const ValBytes: nat := 4

  /** The vector length in bytes of each instruction set. */
  function Vlen(isa: Isa): (r: nat)
    ensures r > 0 && r % ValBytes == 0
  {
    match isa
    case Asimd => 16
    case Sve256 => 32
    case Sve512 => 64
  }

  /** The bytes an element takes in the table: a whole vector when broadcast, one value
      otherwise. */
  function Width(bcast: bool, vlen: nat): nat
  {
    if bcast then vlen else ValBytes
  }

  /** An element as `push_arg_entry_of` creates it: offset 0 until offsets are set. */
  function Pending(e: Entry): Mapped
  {
    Mapped(e.key, 0, e.val, e.bcast)
  }

  /** An element without its offset. */
  function Unplaced(m: Mapped): Entry
  {
    Entry(m.key, m.val, m.bcast)
  }

  // ---------------------------------------------------------------------------------
  // The multimap

  predicate KeySorted(es: seq<Mapped>)
  {
    forall i, j :: 0 <= i < j < |es| ==> es[i].key <= es[j].key
  }

  /** `entry_map_.insert`: the new element goes before the first element with a greater
      key, so after every element with the same key. */
  function Insert(es: seq<Mapped>, m: Mapped): seq<Mapped>
    decreases |es|
  {
    if es == [] || m.key < es[0].key then [m] + es
    else [es[0]] + Insert(es[1..], m)
  }

  /** The elements with key `k`, in map order. */
  function Run(es: seq<Mapped>, k: nat): seq<Entry>
    decreases |es|
  {
    if es == [] then []
    else (if es[0].key == k then [Unplaced(es[0])] else []) + Run(es[1..], k)
  }

  /** The entries of `t` with key `k`, in order. */
  function Filter(t: seq<Entry>, k: nat): seq<Entry>
    decreases |t|
  {
    if t == [] then []
    else Filter(t[..|t| - 1], k) + (if t[|t| - 1].key == k then [t[|t| - 1]] else [])
  }

  /** Inserting the entries of `t` one after the other. */
  function InsertAll(es: seq<Mapped>, t: seq<Entry>): seq<Mapped>
    decreases |t|
  {
    if t == [] then es
    else Insert(InsertAll(es, t[..|t| - 1]), Pending(t[|t| - 1]))
  }

  lemma {:induction false} InsertSorted(es: seq<Mapped>, m: Mapped)
    requires KeySorted(es)
    ensures KeySorted(Insert(es, m))
    ensures |Insert(es, m)| == |es| + 1
    ensures forall x :: x in Insert(es, m) <==> x in es || x == m
    decreases |es|
  {
    if es != [] && m.key >= es[0].key {
      InsertSorted(es[1..], m);
      var r := Insert(es, m);
      assert r == [es[0]] + Insert(es[1..], m);
      forall x | x in es ensures x == es[0] || x in es[1..] {
        var i :| 0 <= i < |es| && es[i] == x;
        if i > 0 {
          assert es[1..][i - 1] == x;
        }
      }
      forall i, j | 0 <= i < j < |r| ensures r[i].key <= r[j].key {
        if i == 0 {
          assert r[j] in Insert(es[1..], m);
          if r[j] != m {
            var k :| 0 <= k < |es[1..]| && es[1..][k] == r[j];
            assert es[k + 1] == r[j];
          }
        }
      }
    }
  }

  /** Inserting an element extends the run of its key by that element and leaves every
      other key's run alone: the elements of one key keep their insertion order. */
  lemma {:induction false} InsertRun(es: seq<Mapped>, m: Mapped, k: nat)
    requires KeySorted(es)
    ensures Run(Insert(es, m), k) == Run(es, k) + (if k == m.key then [Unplaced(m)] else [])
    decreases |es|
  {
    if es == [] {
      assert Insert(es, m) == [m];
      assert Run([m], k) == (if m.key == k then [Unplaced(m)] else []) + Run([], k);
    } else if m.key < es[0].key {
      assert Insert(es, m)[1..] == es;
      if k == m.key {
        RunAbsent(es, k);
        assert Run(es, k) + [Unplaced(m)] == [Unplaced(m)] + Run(es, k);
      }
    } else {
      InsertRun(es[1..], m, k);
      assert Insert(es, m)[1..] == Insert(es[1..], m);
    }
  }

  /** Where every key is above `k`, `k` has no elements. */
  lemma {:induction false} RunAbsent(es: seq<Mapped>, k: nat)
    requires KeySorted(es) && (es != [] ==> k < es[0].key)
    ensures Run(es, k) == []
    decreases |es|
  {
    if es != [] {
      RunAbsent(es[1..], k);
    }
  }

  /** After inserting the entries of `t` into a sorted map, the run of every key is its
      old run followed by the entries of `t` with that key, in push order. */
  lemma {:induction false} InsertAllRuns(es: seq<Mapped>, t: seq<Entry>, k: nat)
    requires KeySorted(es)
    ensures KeySorted(InsertAll(es, t))
    ensures |InsertAll(es, t)| == |es| + |t|
    ensures Run(InsertAll(es, t), k) == Run(es, k) + Filter(t, k)
    decreases |t|
  {
    if t != [] {
      var init := t[..|t| - 1];
      var e := t[|t| - 1];
      InsertAllRuns(es, init, k);
      InsertSorted(InsertAll(es, init), Pending(e));
      InsertRun(InsertAll(es, init), Pending(e), k);
      assert Unplaced(Pending(e)) == e;
    }
  }

  // ---------------------------------------------------------------------------------
  // Offsets and the written table

  /** The bytes the elements `es` take, in order. */
  function TotalWidth(es: seq<Mapped>, vlen: nat): nat
    decreases |es|
  {
    if es == [] then 0 else TotalWidth(es[..|es| - 1], vlen) + Width(es[|es| - 1].bcast, vlen)
  }

  /** Every element's offset is the number of bytes the elements before it take. */
  predicate LaidOut(es: seq<Mapped>, vlen: nat)
  {
    forall i :: 0 <= i < |es| ==> es[i].off == TotalWidth(es[..i], vlen)
  }

  /** Elements of the same key are all broadcast or all not. */
  predicate KeyUniform(es: seq<Mapped>)
  {
    forall i, j :: 0 <= i < |es| && 0 <= j < |es| && es[i].key == es[j].key ==> es[i].bcast == es[j].bcast
  }

  /** The words `prepare_table` writes for one element: its value once per four bytes
      of its width. */
  function Words(m: Mapped, vlen: nat): seq<bv32>
  {
    Copies(m.val, Width(m.bcast, vlen) / ValBytes)
  }

  /** `n` copies of one word. */
  function Copies(val: bv32, n: nat): seq<bv32>
  {
    seq(n, _ => val)
  }

  /** The words `prepare_table` writes for the elements `es`: `width / 4` copies of
      each value, in map order. */
  function Image(es: seq<Mapped>, vlen: nat): seq<bv32>
    decreases |es|
  {
    if es == [] then []
    else Image(es[..|es| - 1], vlen) + Words(es[|es| - 1], vlen)
  }

  lemma {:induction false} ImageAppend(a: seq<Mapped>, b: seq<Mapped>, vlen: nat)
    ensures Image(a + b, vlen) == Image(a, vlen) + Image(b, vlen)
    ensures TotalWidth(a + b, vlen) == TotalWidth(a, vlen) + TotalWidth(b, vlen)
    decreases |b|
  {
    if b == [] {
      assert a + b == a;
    } else {
      var init := b[..|b| - 1];
      assert (a + b)[..|a + b| - 1] == a + init;
      assert (a + b)[|a + b| - 1] == b[|b| - 1];
      ImageAppend(a, init, vlen);
    }
  }

  /** Four bytes per written word. */
  lemma {:induction false} ImageLength(es: seq<Mapped>, vlen: nat)
    requires vlen % ValBytes == 0
    ensures |Image(es, vlen)| * ValBytes == TotalWidth(es, vlen)
    decreases |es|
  {
    if es != [] {
      ImageLength(es[..|es| - 1], vlen);
    }
  }

  /** A byte offset of `n` words is word-aligned and names word `n`. */
  lemma WordOffset(off: nat, n: nat)
    requires off == n * ValBytes
    ensures off % ValBytes == 0 && off / ValBytes == n
  {
  }

  /** The words of one element. */
  lemma ImageSingle(m: Mapped, vlen: nat)
    ensures Image([m], vlen) == Words(m, vlen)
  {
    assert [m][..0] == [];
  }

  /** The words of the elements before, at and after position `i`. */
  lemma ImageSplit(es: seq<Mapped>, vlen: nat, i: nat)
    requires i < |es|
    ensures Image(es, vlen) == Image(es[..i], vlen) + Image([es[i]], vlen) + Image(es[i + 1..], vlen)
  {
    assert es == es[..i] + [es[i]] + es[i + 1..];
    ImageAppend(es[..i] + [es[i]], es[i + 1..], vlen);
    ImageAppend(es[..i], [es[i]], vlen);
  }

  /** What `prepare_table` writes puts every element's value at that element's offset,
      and keeps it there for the element's whole width. */
  lemma ImagePlacement(es: seq<Mapped>, vlen: nat, i: nat, q: nat)
    requires vlen % ValBytes == 0 && LaidOut(es, vlen)
    requires i < |es| && q < Width(es[i].bcast, vlen) / ValBytes
    ensures es[i].off % ValBytes == 0
    ensures es[i].off / ValBytes + q < |Image(es, vlen)|
    ensures Image(es, vlen)[es[i].off / ValBytes + q] == es[i].val
  {
    ImageLength(es[..i], vlen);
    var n := |Image(es[..i], vlen)|;
    WordOffset(es[i].off, n);
    ImageSplit(es, vlen, i);
    ImageSingle(es[i], vlen);
    assert Image(es, vlen)[n + q] == Image([es[i]], vlen)[q];
  }

  /** The offsets `register_table_entries` assigns. */
  function SetOffsets(es: seq<Mapped>, vlen: nat): seq<Mapped>
  {
    seq(|es|, i requires 0 <= i < |es| => es[i].(off := TotalWidth(es[..i], vlen)))
  }

  /** Setting the offsets keeps everything else, including each key's run, and lays
      the elements out. */
  lemma SetOffsetsProperties(es: seq<Mapped>, vlen: nat, k: nat)
    ensures |SetOffsets(es, vlen)| == |es|
    ensures LaidOut(SetOffsets(es, vlen), vlen)
    ensures KeySorted(es) ==> KeySorted(SetOffsets(es, vlen))
    ensures KeyUniform(es) ==> KeyUniform(SetOffsets(es, vlen))
    ensures Run(SetOffsets(es, vlen), k) == Run(es, k)
  {
    var r := SetOffsets(es, vlen);
    forall i | 0 <= i < |es| ensures r[i].off == TotalWidth(r[..i], vlen) {
      SameWidths(es[..i], r[..i], vlen);
    }
    SameRuns(es, r, k);
  }

  /** Sequences that differ only in offsets take the same bytes. */
  lemma {:induction false} SameWidths(a: seq<Mapped>, b: seq<Mapped>, vlen: nat)
    requires |a| == |b| && forall i :: 0 <= i < |a| ==> a[i].bcast == b[i].bcast
    ensures TotalWidth(a, vlen) == TotalWidth(b, vlen)
    decreases |a|
  {
    if a != [] {
      SameWidths(a[..|a| - 1], b[..|b| - 1], vlen);
    }
  }

  /** Sequences that differ only in offsets have the same runs. */
  lemma {:induction false} SameRuns(a: seq<Mapped>, b: seq<Mapped>, k: nat)
    requires |a| == |b| && forall i :: 0 <= i < |a| ==> Unplaced(a[i]) == Unplaced(b[i])
    ensures Run(a, k) == Run(b, k)
    decreases |a|
  {
    if a != [] {
      SameRuns(a[1..], b[1..], k);
    }
  }

  // ---------------------------------------------------------------------------------
  // table_off and the debug check of prepare_table

  /** The position of the first element with key `k` (`entry_map_.find`), or `|es|`. */
  function FindKey(es: seq<Mapped>, k: nat): (r: nat)
    ensures r <= |es| && (r < |es| ==> es[r].key == k)
    decreases |es|
  {
    if es == [] then 0
    else if es[0].key == k then 0
    else 1 + FindKey(es[1..], k)
  }

  /** `find` returns the first element of the key, or the end when there is none. */
  lemma {:induction false} FindKeyFirst(es: seq<Mapped>, k: nat)
    ensures forall j :: 0 <= j < FindKey(es, k) ==> es[j].key != k
    decreases |es|
  {
    if es != [] && es[0].key != k {
      FindKeyFirst(es[1..], k);
      forall j | 1 <= j < FindKey(es, k) ensures es[j].key != k {
        assert es[1..][j - 1] == es[j];
      }
    }
  }

  /** `table_off(key, key_off_val_shift)`: the offset of the first element of the key
      plus `shift` times that element's width. */
  function TableOff(es: seq<Mapped>, k: nat, shift: nat, vlen: nat): nat
    requires FindKey(es, k) < |es|
  {
    var f := FindKey(es, k);
    es[f].off + shift * Width(es[f].bcast, vlen)
  }

  /** In a sorted map the elements from the first of a key up to any other element of
      that key all have that key. */
  lemma KeyBlock(es: seq<Mapped>, i: nat)
    requires KeySorted(es) && i < |es|
    ensures FindKey(es, es[i].key) <= i
    ensures forall j :: FindKey(es, es[i].key) <= j <= i ==> es[j].key == es[i].key
  {
    var k := es[i].key;
    FindKeyFirst(es, k);
    var f := FindKey(es, k);
    assert f <= i;
    forall j | f <= j <= i ensures es[j].key == k {
      assert es[f].key <= es[j].key <= es[i].key;
    }
  }

  /** `n` widths of `w` bytes, added one at a time. */
  function Scaled(n: nat, w: nat): nat
  {
    if n == 0 then 0 else Scaled(n - 1, w) + w
  }

  lemma {:induction false} ScaledIsProduct(n: nat, w: nat)
    ensures Scaled(n, w) == n * w
  {
    if n > 0 {
      ScaledIsProduct(n - 1, w);
      assert n * w == (n - 1) * w + w;
    }
  }

  /** The offset of the element after position `j` adds the width of `j`. */
  lemma NextOffset(es: seq<Mapped>, vlen: nat, j: nat)
    requires LaidOut(es, vlen) && j + 1 < |es|
    ensures es[j + 1].off == es[j].off + Width(es[j].bcast, vlen)
  {
    assert es[..j + 1][..j] == es[..j];
    assert es[..j + 1][j] == es[j];
  }

  /** Along elements of one width, offsets grow by that width. */
  lemma {:induction false} OffsetsAlongBlock(es: seq<Mapped>, vlen: nat, f: nat, j: nat, w: nat)
    requires LaidOut(es, vlen) && f <= j < |es|
    requires forall m :: f <= m < j ==> Width(es[m].bcast, vlen) == w
    ensures es[j].off == es[f].off + Scaled(j - f, w)
    decreases j
  {
    if j > f {
      OffsetsAlongBlock(es, vlen, f, j - 1, w);
      NextOffset(es, vlen, j - 1);
    }
  }

  /** The debug check of `prepare_table` holds: walking the map in order and adding each
      element's width, the running offset at an element is `table_off` of its key with
      the number of earlier elements of that key. */
  lemma DebugCheckHolds(es: seq<Mapped>, vlen: nat, i: nat)
    requires KeySorted(es) && KeyUniform(es) && LaidOut(es, vlen) && i < |es|
    ensures FindKey(es, es[i].key) <= i
    ensures TotalWidth(es[..i], vlen) == TableOff(es, es[i].key, i - FindKey(es, es[i].key), vlen)
  {
    KeyBlock(es, i);
    var f := FindKey(es, es[i].key);
    var w := Width(es[f].bcast, vlen);
    BlockWidths(es, vlen, f, i);
    OffsetsAlongBlock(es, vlen, f, i, w);
    ScaledIsProduct(i - f, w);
  }

  /** Elements of one key all have the width of the first of them. */
  lemma BlockWidths(es: seq<Mapped>, vlen: nat, f: nat, i: nat)
    requires KeyUniform(es) && f <= i < |es|
    requires forall j :: f <= j <= i ==> es[j].key == es[i].key
    ensures forall m :: f <= m < i ==> Width(es[m].bcast, vlen) == Width(es[f].bcast, vlen)
  {
    forall m | f <= m < i
      ensures Width(es[m].bcast, vlen) == Width(es[f].bcast, vlen)
    {
      assert es[m].key == es[f].key;
    }
  }

  // ---------------------------------------------------------------------------------
  // register_table_entries and prepare_table

  /** The groups' entries in push order. */
  function Concat(groups: seq<TableGroup>, contents: TableGroup -> seq<Entry>): seq<Entry>
    decreases |groups|
  {
    if groups == [] then []
    else Concat(groups[..|groups| - 1], contents) + contents(groups[|groups| - 1])
  }

  /** Everything `register_table_entries` pushes for `alg`: `scale`, `alpha` and `beta`,
      then the needed groups. */
  function Registered(alg: Alg, scale: bv32, alpha: bv32, beta: bv32,
                      contents: TableGroup -> seq<Entry>): seq<Entry>
  {
    [Entry(ScaleKey, scale, true), Entry(AlphaKey, alpha, true), Entry(BetaKey, beta, true)]
    + Concat(PushedGroups(alg), contents)
  }

  /** The entries the static tables hold under the same key share their width. */
  predicate UniformEntries(t: seq<Entry>)
  {
    forall i, j :: 0 <= i < |t| && 0 <= j < |t| && t[i].key == t[j].key ==> t[i].bcast == t[j].bcast
  }

  class ConstTable {
    const vlen: nat
    /** `entry_map_`. */
    var entries: seq<Mapped>
    /** The words `prepare_table` has written. */
    var words: seq<bv32>

    /** `entry_map_` is ordered by key and laid out. */
    ghost predicate Valid()
      reads this`entries
    {
      vlen > 0 && vlen % ValBytes == 0 && KeySorted(entries) && KeyUniform(entries) && LaidOut(entries, vlen)
    }

    constructor(isa: Isa)
      ensures vlen == Vlen(isa) && entries == [] && words == [] && Valid()
    {
      vlen := Vlen(isa);
      entries := [];
      words := [];
    }

    /** `push_arg_entry_of`: one `entry_map_.insert`. */
    method PushArgEntryOf(key: nat, val: bv32, broadcast: bool)
      modifies this`entries
      ensures entries == Insert(old(entries), Mapped(key, 0, val, broadcast))
    {
      var m := Mapped(key, 0, val, broadcast);
      var i := 0;
      while i < |entries| && entries[i].key <= key
        invariant 0 <= i <= |entries|
        invariant Insert(entries, m) == entries[..i] + Insert(entries[i..], m)
      {
        assert entries[i..][1..] == entries[i + 1..];
        assert entries[..i + 1] == entries[..i] + [entries[i]];
        i := i + 1;
      }
      assert Insert(entries[i..], m) == [m] + entries[i..];
      entries := entries[..i] + [m] + entries[i..];
    }

    /** `push_entries_of`: every entry of a static table, in its order. */
    method PushEntriesOf(t: seq<Entry>)
      modifies this`entries
      ensures entries == InsertAll(old(entries), t)
    {
      var i := 0;
      while i < |t|
        invariant 0 <= i <= |t| && entries == InsertAll(old(entries), t[..i])
      {
        assert t[..i + 1][..i] == t[..i];
        PushArgEntryOf(t[i].key, t[i].val, t[i].bcast);
        i := i + 1;
      }
      assert t[..i] == t;
    }

    /** The offset loop of `register_table_entries`: a running sum of the widths. */
    method AssignOffsets()
      modifies this`entries
      ensures entries == SetOffsets(old(entries), vlen)
    {
      ghost var es := entries;
      var off := 0;
      var i := 0;
      while i < |entries|
        invariant 0 <= i <= |entries| == |es|
        invariant off == TotalWidth(es[..i], vlen)
        invariant forall j :: 0 <= j < |es| ==>
                    entries[j] == if j < i then es[j].(off := TotalWidth(es[..j], vlen)) else es[j]
      {
        var te := entries[i];
        entries := entries[i := te.(off := off)];
        assert es[..i + 1][..i] == es[..i];
        off := off + Width(te.bcast, vlen);
        i := i + 1;
      }
    }

    /** `register_table_entries` on an empty map: push `scale`, `alpha` and `beta`, then
        the groups `need_t` selects in their fixed order, then set the offsets. */
    method RegisterTableEntries(alg: Alg, scale: bv32, alpha: bv32, beta: bv32,
                                contents: TableGroup -> seq<Entry>)
      requires entries == []
      modifies this`entries
      ensures entries == SetOffsets(InsertAll([], Registered(alg, scale, alpha, beta, contents)), vlen)
      ensures UniformEntries(Registered(alg, scale, alpha, beta, contents)) && vlen > 0 && vlen % ValBytes == 0
              ==> Valid()
    {
      PushArgEntryOf(ScaleKey, scale, true);
      PushArgEntryOf(AlphaKey, alpha, true);
      PushArgEntryOf(BetaKey, beta, true);
      ghost var head := [Entry(ScaleKey, scale, true), Entry(AlphaKey, alpha, true), Entry(BetaKey, beta, true)];
      assert entries == InsertAll([], head) by {
        assert head[..2] == head[..3][..2] && head[..2][..1] == [head[0]] && [head[0]][..0] == [];
        assert InsertAll([], [head[0]]) == Insert([], Pending(head[0]));
        assert InsertAll([], head[..2]) == Insert(InsertAll([], [head[0]]), Pending(head[1]));
        assert InsertAll([], head) == Insert(InsertAll([], head[..2]), Pending(head[2]));
      }
      var need := NeedOf(alg);
      var g := 0;
      while g < |GroupOrder|
        invariant 0 <= g <= |GroupOrder|
        invariant g == 0 ==> GroupOrder[..g] == [] && head + [] == head
        invariant entries == InsertAll([], head + Concat(Pushes(need, GroupOrder[..g]), contents))
      {
        PushStep(head, need, GroupOrder, g, contents);
        if Needed(need, GroupOrder[g]) {
          PushEntriesOf(contents(GroupOrder[g]));
        }
        g := g + 1;
      }
      assert GroupOrder[..g] == GroupOrder;
      AssignOffsets();
      RegistrationLaysOut(Registered(alg, scale, alpha, beta, contents), vlen);
    }

    /** The inner loop of `prepare_table`: one `dw` of the value per four bytes. */
    method EmitValue(val: bv32, len: nat)
      requires len % ValBytes == 0
      modifies this`words
      ensures words == old(words) + Copies(val, len / ValBytes)
    {
      var d := 0;
      while d < len
        invariant 0 <= d <= len && d % ValBytes == 0
        invariant words == old(words) + Copies(val, d / ValBytes)
      {
        assert Copies(val, d / ValBytes + 1) == Copies(val, d / ValBytes) + [val];
        words := words + [val];
        d := d + ValBytes;
      }
    }

    /** `prepare_table`: with `gen_table`, write `width / 4` copies of each value in map
        order, checking at each element that the running offset is `table_off` of its key
        and occurrence; without it, nothing. */
    method PrepareTable(genTable: bool)
      requires Valid()
      modifies this`words
      ensures words == if genTable then old(words) + Image(entries, vlen) else old(words)
    {
      if !genTable {
        return;
      }
      ghost var es := entries;
      ghost var w0 := words;
      ghost var off := 0;
      ghost var currKey: int := -1;
      ghost var keyOccurences: nat := 0;
      var i := 0;
      while i < |entries|
        invariant entries == es && 0 <= i <= |es|
        invariant words == w0 + Image(es[..i], vlen)
        invariant off == TotalWidth(es[..i], vlen)
        invariant Tracked(es, i, currKey, keyOccurences)
      {
        off, currKey, keyOccurences := EmitChecked(i, w0, off, currKey, keyOccurences);
        i := i + 1;
      }
      assert es[..i] == es;
    }

    /** One element of `prepare_table`: its words, and the debug check that the running
        offset `off` is `table_off` of the element's key and occurrence. */
    method EmitChecked(i: nat, ghost w0: seq<bv32>, ghost off: nat, ghost currKey: int,
                       ghost keyOccurences: nat)
      returns (ghost nextOff: nat, ghost nextKey: int, ghost nextOccurences: nat)
      requires Valid() && i < |entries| && words == w0 + Image(entries[..i], vlen)
      requires off == TotalWidth(entries[..i], vlen) && Tracked(entries, i, currKey, keyOccurences)
      modifies this`words
      ensures words == w0 + Image(entries[..i + 1], vlen)
      ensures nextOff == TotalWidth(entries[..i + 1], vlen)
      ensures Tracked(entries, i + 1, nextKey, nextOccurences)
    {
      var te := entries[i];
      ghost var before := words;
      EmitValue(te.val, Width(te.bcast, vlen));
      nextOff, nextKey, nextOccurences :=
        CheckedStep(entries, vlen, w0, before, words, i, off, currKey, keyOccurences);
      assert off == TableOff(entries, nextKey, nextOccurences - 1, vlen);
    }
  }

  /** An element whose key differs from the one before it is the first of its key. */
  lemma FirstOfKey(es: seq<Mapped>, i: nat)
    requires KeySorted(es) && i < |es| && (i > 0 ==> es[i - 1].key != es[i].key)
    ensures FindKey(es, es[i].key) == i
  {
    KeyBlock(es, i);
  }

  /** The state of the debug check of `prepare_table` after `i` elements: the key of
      the last element (or `undef_key`, here -1) and how many elements of it came so
      far, counted back to the element where the key changed. */
  ghost predicate Tracked(es: seq<Mapped>, i: nat, currKey: int, occurences: nat)
  {
    i <= |es| &&
    (i == 0 ==> currKey == -1) &&
    (i > 0 ==> currKey == es[i - 1].key && 0 < occurences <= i && es[i - occurences].key == currKey
               && (i - occurences > 0 ==> es[i - occurences - 1].key != currKey))
  }

  /** One step of the debug check of `prepare_table`: the bookkeeping moves on to
      element `i`, and the running offset there is `table_off` of its key and
      occurrence. */
  lemma OccurrenceStep(es: seq<Mapped>, vlen: nat, i: nat, currKey: int, occurences: nat)
    requires KeySorted(es) && KeyUniform(es) && LaidOut(es, vlen) && i < |es|
    requires Tracked(es, i, currKey, occurences)
    ensures FindKey(es, es[i].key) <= i
    ensures var next := (if es[i].key != currKey then 0 else occurences) + 1;
            Tracked(es, i + 1, es[i].key, next) &&
            TotalWidth(es[..i], vlen) == TableOff(es, es[i].key, next - 1, vlen)
  {
    if es[i].key != currKey {
      FirstOfKey(es, i);
    } else {
      FirstOfKey(es, i - occurences);
      KeyBlock(es, i);
    }
    DebugCheckHolds(es, vlen, i);
  }

  /** One element of `prepare_table` on the ghost side: the image grows by the element's
      words, the running offset by its width, and the debug check's bookkeeping moves on
      to the element, whose offset is `table_off` of its key and occurrence. */
  lemma CheckedStep(es: seq<Mapped>, vlen: nat, w0: seq<bv32>, before: seq<bv32>,
                    after: seq<bv32>, i: nat, off: nat, currKey: int, occurences: nat)
    returns (nextOff: nat, nextKey: int, nextOccurences: nat)
    requires KeySorted(es) && KeyUniform(es) && LaidOut(es, vlen) && i < |es|
    requires before == w0 + Image(es[..i], vlen) && after == before + Words(es[i], vlen)
    requires off == TotalWidth(es[..i], vlen) && Tracked(es, i, currKey, occurences)
    ensures after == w0 + Image(es[..i + 1], vlen)
    ensures nextOff == TotalWidth(es[..i + 1], vlen)
    ensures nextKey == es[i].key
    ensures nextOccurences == (if es[i].key != currKey then 0 else occurences) + 1
    ensures FindKey(es, nextKey) <= i && off == TableOff(es, nextKey, nextOccurences - 1, vlen)
    ensures Tracked(es, i + 1, nextKey, nextOccurences)
  {
    ImageStep(w0, before, after, es, vlen, i);
    OccurrenceStep(es, vlen, i, currKey, occurences);
    nextOff := off + Width(es[i].bcast, vlen);
    nextKey := es[i].key;
    nextOccurences := (if es[i].key != currKey then 0 else occurences) + 1;
  }

  /** Emitting element `i`'s words after those of the elements before it gives the
      image of the elements up to and including it. */
  lemma ImageStep(w0: seq<bv32>, before: seq<bv32>, after: seq<bv32>, es: seq<Mapped>,
                  vlen: nat, i: nat)
    requires i < |es| && before == w0 + Image(es[..i], vlen)
    requires after == before + Words(es[i], vlen)
    ensures after == w0 + Image(es[..i + 1], vlen)
    ensures TotalWidth(es[..i + 1], vlen) == TotalWidth(es[..i], vlen) + Width(es[i].bcast, vlen)
  {
    ImageSnoc(es, vlen, i);
    assert (w0 + Image(es[..i], vlen)) + Words(es[i], vlen)
        == w0 + (Image(es[..i], vlen) + Words(es[i], vlen));
  }

  /** The words and bytes of the elements up to and including position `i`. */
  lemma ImageSnoc(es: seq<Mapped>, vlen: nat, i: nat)
    requires i < |es|
    ensures Image(es[..i + 1], vlen) == Image(es[..i], vlen) + Words(es[i], vlen)
    ensures TotalWidth(es[..i + 1], vlen) == TotalWidth(es[..i], vlen) + Width(es[i].bcast, vlen)
  {
    assert es[..i + 1][..i] == es[..i];
    assert es[..i + 1][i] == es[i];
  }

  lemma {:induction false} PushesSnoc(n: Need, order: seq<TableGroup>, g: nat)
    requires g < |order|
    ensures Pushes(n, order[..g + 1]) == Pushes(n, order[..g]) + (if Needed(n, order[g]) then [order[g]] else [])
    decreases g
  {
    if g > 0 {
      PushesSnoc(n, order[1..], g - 1);
      assert order[1..][..g] == order[..g + 1][1..];
      assert order[1..][..g - 1] == order[..g][1..];
      assert order[1..][g - 1] == order[g];
    } else {
      assert order[..1][1..] == [];
    }
  }

  /** One guarded push of `register_table_entries`, as the entries it inserts. */
  lemma PushStep(head: seq<Entry>, n: Need, order: seq<TableGroup>, g: nat, contents: TableGroup -> seq<Entry>)
    requires g < |order|
    ensures InsertAll([], head + Concat(Pushes(n, order[..g + 1]), contents))
         == InsertAll(InsertAll([], head + Concat(Pushes(n, order[..g]), contents)),
                      if Needed(n, order[g]) then contents(order[g]) else [])
  {
    PushesSnoc(n, order, g);
    var done := Concat(Pushes(n, order[..g]), contents);
    if Needed(n, order[g]) {
      ConcatSnoc(Pushes(n, order[..g]), order[g], contents);
      InsertAllAppend([], head + done, contents(order[g]));
      assert head + (done + contents(order[g])) == head + done + contents(order[g]);
    } else {
      assert Pushes(n, order[..g + 1]) == Pushes(n, order[..g]);
    }
  }

  lemma ConcatSnoc(groups: seq<TableGroup>, g: TableGroup, contents: TableGroup -> seq<Entry>)
    ensures Concat(groups + [g], contents) == Concat(groups, contents) + contents(g)
  {
    assert (groups + [g])[..|groups|] == groups;
  }

  lemma {:induction false} InsertAllAppend(es: seq<Mapped>, a: seq<Entry>, b: seq<Entry>)
    ensures InsertAll(es, a + b) == InsertAll(InsertAll(es, a), b)
    decreases |b|
  {
    if b == [] {
      assert a + b == a;
    } else {
      assert (a + b)[..|a + b| - 1] == a + b[..|b| - 1];
      assert (a + b)[|a + b| - 1] == b[|b| - 1];
      InsertAllAppend(es, a, b[..|b| - 1]);
    }
  }

  // ---------------------------------------------------------------------------------
  // The table as the kernels read it

  /** Every element of the map built from `t` is a pushed entry. */
  lemma {:induction false} InsertAllMembers(t: seq<Entry>)
    ensures KeySorted(InsertAll([], t))
    ensures forall x :: x in InsertAll([], t) ==> Unplaced(x) in t && x.off == 0
    decreases |t|
  {
    if t != [] {
      var init := t[..|t| - 1];
      InsertAllMembers(init);
      InsertSorted(InsertAll([], init), Pending(t[|t| - 1]));
      forall x | x in InsertAll([], t) ensures Unplaced(x) in t && x.off == 0 {
        if x in InsertAll([], init) {
          assert Unplaced(x) in init;
        } else {
          assert Unplaced(x) == t[|t| - 1];
        }
      }
    }
  }

  /** The map `register_table_entries` builds from key-uniform entries is sorted,
      key-uniform and laid out. */
  lemma RegistrationLaysOut(t: seq<Entry>, vlen: nat)
    ensures var es := SetOffsets(InsertAll([], t), vlen);
            KeySorted(es) && LaidOut(es, vlen) && (UniformEntries(t) ==> KeyUniform(es))
  {
    var ms := InsertAll([], t);
    InsertAllMembers(t);
    if UniformEntries(t) {
      forall i, j | 0 <= i < |ms| && 0 <= j < |ms| && ms[i].key == ms[j].key
        ensures ms[i].bcast == ms[j].bcast
      {
        assert ms[i] in ms && ms[j] in ms;
        var a :| 0 <= a < |t| && t[a] == Unplaced(ms[i]);
        var b :| 0 <= b < |t| && t[b] == Unplaced(ms[j]);
      }
    }
    SetOffsetsProperties(ms, vlen, 0);
  }

  /** In a sorted map the run of a key is a block starting at its first element. */
  lemma {:induction false} RunIsBlock(es: seq<Mapped>, k: nat, n: nat)
    requires KeySorted(es) && n < |Run(es, k)|
    ensures FindKey(es, k) + n < |es|
    ensures Unplaced(es[FindKey(es, k) + n]) == Run(es, k)[n] && es[FindKey(es, k) + n].key == k
    decreases |es|
  {
    assert es != [];
    if es[0].key == k {
      if n > 0 {
        var rest := es[1..];
        if rest == [] || rest[0].key != k {
          RunAbsent(rest, k);
        } else {
          RunIsBlock(rest, k, n - 1);
        }
      }
    } else if es[0].key > k {
      RunAbsent(es, k);
    } else {
      RunIsBlock(es[1..], k, n);
    }
  }

  /** In a valid map, at `table_off(key, n)` in what `prepare_table` writes lies the
      value of the `n`-th element of the key. */
  lemma TableValOfRun(es: seq<Mapped>, vlen: nat, k: nat, n: nat)
    requires vlen > 0 && vlen % ValBytes == 0
    requires KeySorted(es) && KeyUniform(es) && LaidOut(es, vlen) && n < |Run(es, k)|
    ensures FindKey(es, k) < |es|
    ensures TableOff(es, k, n, vlen) % ValBytes == 0
    ensures TableOff(es, k, n, vlen) / ValBytes < |Image(es, vlen)|
    ensures Image(es, vlen)[TableOff(es, k, n, vlen) / ValBytes] == Run(es, k)[n].val
  {
    RunIsBlock(es, k, n);
    var i := FindKey(es, k) + n;
    DebugCheckHolds(es, vlen, i);
    var o := TableOff(es, k, n, vlen);
    assert o == TotalWidth(es[..i], vlen);
    ValueAt(es, vlen, i, o);
  }

  /** The running offset of element `i` points at its first word in the image. */
  lemma ValueAt(es: seq<Mapped>, vlen: nat, i: nat, o: nat)
    requires vlen > 0 && vlen % ValBytes == 0 && LaidOut(es, vlen)
    requires i < |es| && o == TotalWidth(es[..i], vlen)
    ensures o % ValBytes == 0 && o / ValBytes < |Image(es, vlen)|
    ensures Image(es, vlen)[o / ValBytes] == es[i].val
  {
    ImagePlacement(es, vlen, i, 0);
  }

  /** `table_val(key, n)` of the kernels: at `table_off(key, n)` in what `prepare_table`
      writes lies the value of the `n`-th entry pushed under `key`, whatever the order
      of the pushes of other keys. */
  lemma TableValIsNthPushed(t: seq<Entry>, vlen: nat, k: nat, n: nat)
    requires vlen > 0 && vlen % ValBytes == 0 && UniformEntries(t) && n < |Filter(t, k)|
    ensures var es := SetOffsets(InsertAll([], t), vlen);
            FindKey(es, k) < |es| &&
            TableOff(es, k, n, vlen) % ValBytes == 0 &&
            TableOff(es, k, n, vlen) / ValBytes < |Image(es, vlen)| &&
            Image(es, vlen)[TableOff(es, k, n, vlen) / ValBytes] == Filter(t, k)[n].val
  {
    var es := SetOffsets(InsertAll([], t), vlen);
    RegistrationLaysOut(t, vlen);
    InsertAllRuns([], t, k);
    SetOffsetsProperties(InsertAll([], t), vlen, k);
    TableValOfRun(es, vlen, k, n);
  }
}
