/** The binary package index: a builder that sorts names and shares strings, and a reader that
    checks what it is given and then searches by halving. */
module PkgIndex {
  import opened Bytes
  import opened LittleEndian

  const HEADER_SIZE: nat := 32
  const INDEX_ENTRY_SIZE: nat := 8
  const PACKAGE_ENTRY_SIZE: nat := 52
  const MAGIC: seq<Byte> := [65, 66, 80, 68]

  /** Category tags. */
  type Tag = b: Byte | b <= 9 || b == 255

  /** The strings are kept as their bytes. */
  datatype Package = Package(name: seq<Byte>, version: seq<Byte>, description: seq<Byte>, url: seq<Byte>,
                             license: seq<Byte>, arch: seq<Byte>, depends: seq<Byte>, provided: seq<Byte>,
                             category: Tag)

  function Fields(p: Package): (r: seq<seq<Byte>>)
    ensures |r| == 8
  {
    [p.name, p.version, p.description, p.url, p.license, p.arch, p.depends, p.provided]
  }

  function FromFields(f: seq<seq<Byte>>, category: Tag): Package
    requires |f| == 8
  {
    Package(f[0], f[1], f[2], f[3], f[4], f[5], f[6], f[7], category)
  }

  /** Any other byte is read as "unknown". */
  function CategoryOf(b: Byte): Tag {
    if b <= 9 then b else 255
  }

  // ----- order of names -----

  predicate LexLe(a: seq<Byte>, b: seq<Byte>) {
    a == [] || (b != [] && (a[0] < b[0] || (a[0] == b[0] && LexLe(a[1..], b[1..]))))
  }

  lemma {:induction false} LexTotal(a: seq<Byte>, b: seq<Byte>)
    ensures LexLe(a, b) || LexLe(b, a)
    ensures LexLe(a, b) && LexLe(b, a) ==> a == b
  {
    if a != [] && b != [] && a[0] == b[0] {
      LexTotal(a[1..], b[1..]);
      assert a == [a[0]] + a[1..] && b == [b[0]] + b[1..];
    }
  }

  lemma {:induction false} LexTransitive(a: seq<Byte>, b: seq<Byte>, c: seq<Byte>)
    requires LexLe(a, b) && LexLe(b, c)
    ensures LexLe(a, c)
  {
    if a != [] && a[0] == b[0] == c[0] {
      LexTransitive(a[1..], b[1..], c[1..]);
    }
  }

  // ----- the string table -----

  datatype StringRef = StringRef(offset: nat, len: nat)

  type Refs = map<seq<Byte>, StringRef>

  function Lookup(refs: Refs, s: seq<Byte>): StringRef {
    if s == [] then StringRef(0, 0) else if s in refs then refs[s] else StringRef(0, 0)
  }

  /** `ref` stands for `s` in the strings. */
  ghost predicate Resolves(strings: seq<Byte>, ref: StringRef, s: seq<Byte>) {
    && ref.len == |s| < 0x1_0000 && ref.offset < 0x1_0000_0000
    && ref.offset + ref.len <= |strings| && (s != [] ==> strings[ref.offset..ref.offset + ref.len] == s)
  }

  ghost predicate TableOk(strings: seq<Byte>, refs: Refs) {
    forall s :: s in refs ==> Resolves(strings, refs[s], s)
  }

  class StringTable {
    var data: seq<Byte>
    var refs: Refs

    constructor ()
      ensures data == [] && refs == map[] && TableOk(data, refs)
    {
      data, refs := [], map[];
    }

    /** A string not seen before is appended; the table never holds one twice. */
    method Intern(s: seq<Byte>)
      requires TableOk(data, refs) && |s| < 0x1_0000 && |data| + |s| < 0x1_0000_0000
      modifies this
      ensures TableOk(data, refs) && refs.Keys == old(refs.Keys) + (if s == [] then {} else {s})
      ensures data == if s == [] || s in old(refs) then old(data) else old(data) + s
      ensures forall t :: t in old(refs) ==> refs[t] == old(refs)[t]
    {
      if s == [] || s in refs {
        return;
      }
      ghost var before := data;
      var ref := StringRef(|data|, |s|);
      data := data + s;
      refs := refs[s := ref];
      forall t | t in refs ensures Resolves(data, refs[t], t) {
        if t != s {
          assert Resolves(before, refs[t], t);
          assert data[refs[t].offset..refs[t].offset + refs[t].len]
              == before[refs[t].offset..refs[t].offset + refs[t].len];
        }
      }
    }
  }

  /** The bytes of all strings, counted with repetition. */
  function FieldsSize(f: seq<seq<Byte>>): nat {
    if f == [] then 0 else FieldsSize(f[..|f| - 1]) + |f[|f| - 1]|
  }

  function StringsSize(ps: seq<Package>): nat {
    if ps == [] then 0 else StringsSize(ps[..|ps| - 1]) + FieldsSize(Fields(ps[|ps| - 1]))
  }

  /** Everything fits its field: 16 bits for entry numbers and lengths, 32 bits for offsets. */
  ghost predicate Limits(ps: seq<Package>) {
    && |ps| < 0x1_0000 && HEADER_SIZE + 60 * |ps| + StringsSize(ps) < 0x1_0000_0000
    && forall i, j :: 0 <= i < |ps| && 0 <= j < 8 ==> |Fields(ps[i])[j]| < 0x1_0000
  }

  /** The strings of the first `n` packages are in the table. */
  ghost predicate Interned(ps: seq<Package>, n: nat, refs: Refs)
    requires n <= |ps|
  {
    forall i, j :: 0 <= i < n && 0 <= j < 8 && Fields(ps[i])[j] != [] ==> Fields(ps[i])[j] in refs
  }

  method InternAll(ps: seq<Package>) returns (strings: seq<Byte>, refs: Refs)
    requires Limits(ps)
    ensures TableOk(strings, refs) && Interned(ps, |ps|, refs) && |strings| <= StringsSize(ps)
  {
    hide TableOk;
    var table := new StringTable();
    var i: nat := 0;
    assert ps[..0] == [];
    while i < |ps|
      invariant i <= |ps| && fresh(table) && TableOk(table.data, table.refs)
      invariant |table.data| <= StringsSize(ps[..i]) && Interned(ps, i, table.refs)
    {
      SizePrefix(ps, i);
      InternFields(table, ps, i);
      i := i + 1;
    }
    assert ps[..i] == ps;
    strings, refs := table.data, table.refs;
  }

  lemma {:induction false} SizePrefix(ps: seq<Package>, i: nat)
    requires i < |ps|
    ensures StringsSize(ps[..i + 1]) == StringsSize(ps[..i]) + FieldsSize(Fields(ps[i])) <= StringsSize(ps)
    decreases |ps|
  {
    assert ps[..i + 1][..i] == ps[..i];
    if i < |ps| - 1 {
      SizePrefix(ps[..|ps| - 1], i);
      assert ps[..|ps| - 1][..i + 1] == ps[..i + 1] && ps[..|ps| - 1][..i] == ps[..i];
    } else {
      assert ps[..i + 1] == ps;
    }
  }

  lemma {:induction false} FieldPrefix(f: seq<seq<Byte>>, j: nat)
    requires j < |f|
    ensures FieldsSize(f[..j + 1]) == FieldsSize(f[..j]) + |f[j]| <= FieldsSize(f)
    decreases |f|
  {
    assert f[..j + 1][..j] == f[..j];
    if j < |f| - 1 {
      FieldPrefix(f[..|f| - 1], j);
      assert f[..|f| - 1][..j + 1] == f[..j + 1] && f[..|f| - 1][..j] == f[..j];
    } else {
      assert f[..j + 1] == f;
    }
  }

  method InternFields(table: StringTable, ps: seq<Package>, i: nat)
    requires Limits(ps) && i < |ps| && TableOk(table.data, table.refs) && Interned(ps, i, table.refs)
    requires |table.data| + FieldsSize(Fields(ps[i])) <= StringsSize(ps)
    modifies table
    ensures TableOk(table.data, table.refs) && Interned(ps, i + 1, table.refs)
    ensures |table.data| <= old(|table.data|) + FieldsSize(Fields(ps[i]))
  {
    hide TableOk;
    var f := Fields(ps[i]);
    var j: nat := 0;
    while j < 8
      invariant j <= 8 && TableOk(table.data, table.refs) && Interned(ps, i, table.refs)
      invariant |table.data| <= old(|table.data|) + FieldsSize(f[..j])
      invariant forall k :: 0 <= k < j && f[k] != [] ==> f[k] in table.refs
    {
      FieldPrefix(f, j);
      table.Intern(f[j]);
      j := j + 1;
    }
    assert f[..j] == f;
  }

  // ----- the name index -----

  /** Entry numbers, each once, by name. */
  ghost predicate NameOrder(ps: seq<Package>, order: seq<nat>) {
    && |order| == |ps| && (forall k :: 0 <= k < |order| ==> order[k] < |ps|)
    && (forall i :: 0 <= i < |ps| ==> i in order)
    && forall a, b :: 0 <= a < b < |order| ==> LexLe(ps[order[a]].name, ps[order[b]].name)
  }

  /** Sorting by name, stably. */
  method SortByName(ps: seq<Package>) returns (order: seq<nat>)
    ensures NameOrder(ps, order)
  {
    order := [];
    var n: nat := 0;
    while n < |ps|
      invariant n <= |ps| && |order| == n && forall k :: 0 <= k < n ==> order[k] < n
      invariant forall i :: 0 <= i < n ==> i in order
      invariant forall a, b :: 0 <= a < b < n ==> LexLe(ps[order[a]].name, ps[order[b]].name)
    {
      var k := n;
      while k > 0 && !LexLe(ps[order[k - 1]].name, ps[n].name)
        invariant k <= n && forall b :: k <= b < n ==> LexLe(ps[n].name, ps[order[b]].name)
      {
        LexTotal(ps[order[k - 1]].name, ps[n].name);
        k := k - 1;
      }
      Placed(ps, order, n, k);
      order := order[..k] + [n] + order[k..];
      n := n + 1;
    }
  }

  lemma Placed(ps: seq<Package>, order: seq<nat>, n: nat, k: nat)
    requires n < |ps| && |order| == n && k <= n && (forall a :: 0 <= a < n ==> order[a] < n)
    requires forall i :: 0 <= i < n ==> i in order
    requires forall a, b :: 0 <= a < b < n ==> LexLe(ps[order[a]].name, ps[order[b]].name)
    requires forall b :: k <= b < n ==> LexLe(ps[n].name, ps[order[b]].name)
    requires k > 0 ==> LexLe(ps[order[k - 1]].name, ps[n].name)
    ensures var o := order[..k] + [n] + order[k..];
      && |o| == n + 1 && (forall a :: 0 <= a < n + 1 ==> o[a] < n + 1)
      && (forall i :: 0 <= i < n + 1 ==> i in o)
      && forall a, b :: 0 <= a < b < n + 1 ==> LexLe(ps[o[a]].name, ps[o[b]].name)
  {
    var o := order[..k] + [n] + order[k..];
    forall i | 0 <= i < n + 1 ensures i in o {
      if i == n {
        assert o[k] == n;
      } else {
        assert i in order;
        var a :| 0 <= a < n && order[a] == i;
        assert o[if a < k then a else a + 1] == i;
      }
    }
    forall a, b | 0 <= a < b < n + 1 ensures LexLe(ps[o[a]].name, ps[o[b]].name) {
      if b == k {
        if a < k - 1 {
          LexTransitive(ps[order[a]].name, ps[order[k - 1]].name, ps[n].name);
        }
      } else if a == k {
        assert o[b] == order[b - 1];
      } else {
        assert o[a] == order[if a < k then a else a - 1] && o[b] == order[if b < k then b else b - 1];
      }
    }
  }

  // ----- the file -----

  function RefBytes(r: StringRef): (b: seq<Byte>)
    ensures |b| == 6
  {
    Le(r.offset, 4) + Le(r.len, 2)
  }

  function IndexRecord(ps: seq<Package>, refs: Refs, i: nat): (b: seq<Byte>)
    requires i < |ps|
    ensures |b| == INDEX_ENTRY_SIZE
  {
    RefBytes(Lookup(refs, ps[i].name)) + Le(i, 2)
  }

  function IndexSection(ps: seq<Package>, refs: Refs, order: seq<nat>, n: nat): (b: seq<Byte>)
    requires n <= |order| && forall k :: 0 <= k < |order| ==> order[k] < |ps|
    ensures |b| == INDEX_ENTRY_SIZE * n
  {
    if n == 0 then [] else IndexSection(ps, refs, order, n - 1) + IndexRecord(ps, refs, order[n - 1])
  }

  function FieldRefs(refs: Refs, f: seq<seq<Byte>>, n: nat): (b: seq<Byte>)
    requires n <= |f|
    ensures |b| == 6 * n
  {
    if n == 0 then [] else FieldRefs(refs, f, n - 1) + RefBytes(Lookup(refs, f[n - 1]))
  }

  function EntryRecord(refs: Refs, p: Package): (b: seq<Byte>)
    ensures |b| == PACKAGE_ENTRY_SIZE
  {
    FieldRefs(refs, Fields(p), 8) + [p.category, 0] + Le(0, 2)
  }

  function EntrySection(ps: seq<Package>, refs: Refs, n: nat): (b: seq<Byte>)
    requires n <= |ps|
    ensures |b| == PACKAGE_ENTRY_SIZE * n
  {
    if n == 0 then [] else EntrySection(ps, refs, n - 1) + EntryRecord(refs, ps[n - 1])
  }

  function HeaderBytes(count: nat, strings: nat): (b: seq<Byte>)
    ensures |b| == HEADER_SIZE
  {
    MAGIC + Le(1, 2) + Le(0, 2) + Le(count, 4) + Le(HEADER_SIZE, 4) + Le(HEADER_SIZE + 8 * count, 4)
    + Le(HEADER_SIZE + 60 * count, 4) + Le(strings, 4) + Le(HEADER_SIZE + 60 * count + strings, 4)
  }

  function FileBytes(ps: seq<Package>, strings: seq<Byte>, refs: Refs, order: seq<nat>): seq<Byte>
    requires forall k :: 0 <= k < |order| ==> order[k] < |ps|
  {
    HeaderBytes(|ps|, |strings|) + IndexSection(ps, refs, order, |order|) + EntrySection(ps, refs, |ps|) + strings
  }

  /** A file that holds the packages. */
  ghost predicate Holds(data: seq<Byte>, ps: seq<Package>, strings: seq<Byte>, refs: Refs, order: seq<nat>) {
    && Limits(ps) && TableOk(strings, refs) && Interned(ps, |ps|, refs) && |strings| <= StringsSize(ps)
    && NameOrder(ps, order) && data == FileBytes(ps, strings, refs, order)
  }

  method Build(ps: seq<Package>)
      returns (buf: seq<Byte>, ghost strings: seq<Byte>, ghost refs: Refs, ghost order: seq<nat>)
    requires Limits(ps)
    ensures Holds(buf, ps, strings, refs, order)
  {
    hide Le, Interned, TableOk, Limits, NameOrder;
    var data, table := InternAll(ps);
    var sorted := SortByName(ps);
    strings, refs, order := data, table, sorted;
    Bounds(ps, sorted);
    var count := |ps|;
    var head := HeaderBytes(count, |data|);
    buf := head;
    assert head + [] == head;
    var k: nat := 0;
    while k < |sorted|
      invariant k <= |sorted| && buf == head + IndexSection(ps, table, sorted, k)
    {
      var record := IndexRecord(ps, table, sorted[k]);
      Assoc(head, IndexSection(ps, table, sorted, k), record);
      buf := buf + record;
      k := k + 1;
    }
    ghost var index := buf;
    assert index + [] == index;
    var i: nat := 0;
    while i < count
      invariant i <= count && buf == index + EntrySection(ps, table, i)
    {
      var record := EntryRecord(table, ps[i]);
      Assoc(index, EntrySection(ps, table, i), record);
      buf := buf + record;
      i := i + 1;
    }
    buf := buf + data;
  }

  lemma Bounds(ps: seq<Package>, order: seq<nat>)
    requires NameOrder(ps, order)
    ensures |order| == |ps| && forall k :: 0 <= k < |order| ==> order[k] < |ps|
  {
  }

  // ----- reading -----

  function U16(data: seq<Byte>, pos: nat): (v: nat)
    requires pos + 2 <= |data|
  {
    FromLe(data[pos..pos + 2])
  }

  function U32(data: seq<Byte>, pos: nat): nat
    requires pos + 4 <= |data|
  {
    FromLe(data[pos..pos + 4])
  }

  datatype Header = Header(count: nat, indexOffset: nat, entriesOffset: nat, stringsOffset: nat, stringsSize: nat)

  datatype Index = Index(data: seq<Byte>, h: Header)

  datatype IndexError = TooShort | BadMagic | BadVersion | BadOffset | BadStringRef | NotSorted | SizeMismatch

  datatype Opened = Ok(index: Index) | Err(error: IndexError)

  /** A reference into the strings; empty if it reaches past the end. */
  function Resolve(ix: Index, offset: nat, len: nat): seq<Byte> {
    var start := ix.h.stringsOffset + offset;
    if len == 0 then [] else if start + len <= |ix.data| then ix.data[start..start + len] else []
  }

  ghost predicate InBounds(ix: Index) {
    && ix.h.indexOffset + ix.h.count * INDEX_ENTRY_SIZE <= |ix.data|
    && ix.h.entriesOffset + ix.h.count * PACKAGE_ENTRY_SIZE <= |ix.data|
    && ix.h.stringsOffset + ix.h.stringsSize <= |ix.data|
  }

  function NameAt(ix: Index, n: nat): seq<Byte>
    requires InBounds(ix) && n < ix.h.count
  {
    var base := ix.h.indexOffset + n * INDEX_ENTRY_SIZE;
    Resolve(ix, U32(ix.data, base), U16(ix.data, base + 4))
  }

  function EntryAt(ix: Index, n: nat): nat
    requires InBounds(ix) && n < ix.h.count
  {
    U16(ix.data, ix.h.indexOffset + n * INDEX_ENTRY_SIZE + 6)
  }

  function FieldAt(ix: Index, i: nat, j: nat): seq<Byte>
    requires InBounds(ix) && i < ix.h.count && j < 8
  {
    var base := ix.h.entriesOffset + i * PACKAGE_ENTRY_SIZE + 6 * j;
    Resolve(ix, U32(ix.data, base), U16(ix.data, base + 4))
  }

  function PackageAt(ix: Index, i: nat): Package
    requires InBounds(ix) && i < ix.h.count
  {
    FromFields(seq(8, j requires 0 <= j < 8 => FieldAt(ix, i, j)),
               CategoryOf(ix.data[ix.h.entriesOffset + i * PACKAGE_ENTRY_SIZE + 48]))
  }

  /** What opening establishes: sections and entry numbers in range, names sorted. */
  ghost predicate Valid(ix: Index) {
    && InBounds(ix)
    && (forall n :: 0 <= n < ix.h.count ==> EntryAt(ix, n) < ix.h.count)
    && forall a, b :: 0 <= a < b < ix.h.count ==> LexLe(NameAt(ix, a), NameAt(ix, b))
  }

  /** Parses and validates. */
  method FromBytes(data: seq<Byte>, ghost ps: seq<Package>, ghost strings: seq<Byte>, ghost refs: Refs,
      ghost order: seq<nat>)
      returns (r: Opened)
    ensures r.Ok? ==> Valid(r.index) && r.index.data == data
    ensures Holds(data, ps, strings, refs, order) ==>
              r == Ok(Index(data, HeaderFor(|ps|, |strings|)))
  {
    hide Le, FromLe, Resolve, LexLe, Holds;
    ghost var on := Holds(data, ps, strings, refs, order);
    if on {
      HeaderRead(data, ps, strings, refs, order);
    }
    if |data| < HEADER_SIZE {
      return Err(TooShort);
    }
    if data[0..4] != MAGIC {
      return Err(BadMagic);
    }
    if U16(data, 4) != 1 {
      return Err(BadVersion);
    }
    if U32(data, 28) != |data| {
      return Err(SizeMismatch);
    }
    var h := Header(U32(data, 8), U32(data, 12), U32(data, 16), U32(data, 20), U32(data, 24));
    if h.indexOffset + h.count * INDEX_ENTRY_SIZE > |data| {
      return Err(BadOffset);
    }
    if h.entriesOffset + h.count * PACKAGE_ENTRY_SIZE > |data| {
      return Err(BadOffset);
    }
    if h.stringsOffset + h.stringsSize > |data| {
      return Err(BadOffset);
    }
    var ix := Index(data, h);
    var n: nat := 0;
    while n < h.count
      invariant n <= h.count && forall k :: 0 <= k < n ==> EntryAt(ix, k) < h.count
      invariant forall a, b :: 0 <= a < b < n ==> LexLe(NameAt(ix, a), NameAt(ix, b))
    {
      if on {
        RecordRead(data, ps, strings, refs, order, n);
        if n > 0 {
          RecordRead(data, ps, strings, refs, order, n - 1);
        }
      }
      if EntryAt(ix, n) >= h.count {
        return Err(BadOffset);
      }
      var base := h.indexOffset + n * INDEX_ENTRY_SIZE;
      var offset, len := U32(data, base), U16(data, base + 4);
      if len != 0
          && (offset > h.stringsSize || len > h.stringsSize - offset || h.stringsOffset + offset + len > |data|) {
        return Err(BadStringRef);
      }
      if n > 0 {
        LexTotal(NameAt(ix, n), NameAt(ix, n - 1));
        if NameAt(ix, n) != NameAt(ix, n - 1) && LexLe(NameAt(ix, n), NameAt(ix, n - 1)) {
          return Err(NotSorted);
        }
        Chained(ix, n);
      }
      n := n + 1;
    }
    return Ok(ix);
  }

  lemma Chained(ix: Index, n: nat)
    requires InBounds(ix) && 0 < n < ix.h.count && LexLe(NameAt(ix, n - 1), NameAt(ix, n))
    requires forall a, b :: 0 <= a < b < n ==> LexLe(NameAt(ix, a), NameAt(ix, b))
    ensures forall a, b :: 0 <= a < b < n + 1 ==> LexLe(NameAt(ix, a), NameAt(ix, b))
  {
    forall a | 0 <= a < n ensures LexLe(NameAt(ix, a), NameAt(ix, n)) {
      if a < n - 1 {
        LexTransitive(NameAt(ix, a), NameAt(ix, n - 1), NameAt(ix, n));
      }
    }
  }

  function HeaderFor(count: nat, strings: nat): Header {
    Header(count, HEADER_SIZE, HEADER_SIZE + 8 * count, HEADER_SIZE + 60 * count, strings)
  }

  /** Binary search by name: it finds an entry exactly when some name is equal. */
  method Find(ix: Index, name: seq<Byte>) returns (r: Option<nat>)
    requires Valid(ix)
    ensures r.Some? <==> exists n :: 0 <= n < ix.h.count && NameAt(ix, n) == name
    ensures r.Some? ==>
        r.value < ix.h.count && exists n :: 0 <= n < ix.h.count && NameAt(ix, n) == name && r.value == EntryAt(ix, n)
  {
    hide LexLe, NameAt, EntryAt;
    var lo: nat, hi := 0, ix.h.count;
    while lo < hi
      invariant lo <= hi <= ix.h.count
      invariant forall n :: 0 <= n < lo ==> NameAt(ix, n) != name
      invariant forall n :: hi <= n < ix.h.count ==> NameAt(ix, n) != name
    {
      var mid := lo + (hi - lo) / 2;
      var found := NameAt(ix, mid);
      LexTotal(found, name);
      if found == name {
        return Some(EntryAt(ix, mid));
      } else if LexLe(found, name) {
        forall n | 0 <= n < mid + 1 ensures NameAt(ix, n) != name {
          Between(ix, n, mid);
          LexTotal(NameAt(ix, n), found);
        }
        lo := mid + 1;
      } else {
        forall n | mid <= n < ix.h.count ensures NameAt(ix, n) != name {
          Between(ix, mid, n);
        }
        hi := mid;
      }
    }
    return None;
  }

  lemma Between(ix: Index, a: nat, b: nat)
    requires Valid(ix) && a <= b < ix.h.count
    ensures LexLe(NameAt(ix, a), NameAt(ix, b))
  {
    LexTotal(NameAt(ix, a), NameAt(ix, a));
  }

  method Get(ix: Index, i: nat) returns (r: Option<Package>)
    requires Valid(ix)
    ensures r == if i < ix.h.count then Some(PackageAt(ix, i)) else None
  {
    if i >= ix.h.count {
      return None;
    }
    return Some(PackageAt(ix, i));
  }

  // ----- what the reader finds in what the builder wrote -----

  lemma {:induction false} IndexAt(ps: seq<Package>, refs: Refs, order: seq<nat>, n: nat, k: nat)
    requires k < n <= |order| && forall k :: 0 <= k < |order| ==> order[k] < |ps|
    ensures IndexSection(ps, refs, order, n)[8 * k..8 * k + 8] == IndexRecord(ps, refs, order[k])
    decreases n
  {
    hide IndexRecord;
    if k < n - 1 {
      IndexAt(ps, refs, order, n - 1, k);
      var a := IndexSection(ps, refs, order, n - 1);
      assert (a + IndexRecord(ps, refs, order[n - 1]))[8 * k..8 * k + 8] == a[8 * k..8 * k + 8];
    }
  }

  lemma {:induction false} EntrySectionAt(ps: seq<Package>, refs: Refs, n: nat, k: nat)
    requires k < n <= |ps|
    ensures EntrySection(ps, refs, n)[52 * k..52 * k + 52] == EntryRecord(refs, ps[k])
    decreases n
  {
    hide EntryRecord;
    if k < n - 1 {
      EntrySectionAt(ps, refs, n - 1, k);
      var a := EntrySection(ps, refs, n - 1);
      assert (a + EntryRecord(refs, ps[n - 1]))[52 * k..52 * k + 52] == a[52 * k..52 * k + 52];
    }
  }

  lemma {:induction false} FieldRefsAt(refs: Refs, f: seq<seq<Byte>>, n: nat, j: nat)
    requires j < n <= |f|
    ensures FieldRefs(refs, f, n)[6 * j..6 * j + 6] == RefBytes(Lookup(refs, f[j]))
    decreases n
  {
    hide RefBytes;
    if j < n - 1 {
      FieldRefsAt(refs, f, n - 1, j);
      var a := FieldRefs(refs, f, n - 1);
      assert (a + RefBytes(Lookup(refs, f[n - 1])))[6 * j..6 * j + 6] == a[6 * j..6 * j + 6];
    }
  }

  /** A reference read back. */
  lemma RefRead(r: StringRef)
    requires r.offset < 0x1_0000_0000 && r.len < 0x1_0000
    ensures FromLe(RefBytes(r)[0..4]) == r.offset && FromLe(RefBytes(r)[4..6]) == r.len
  {
    hide Le, FromLe;
    Sizes();
    LeRoundTrip(r.offset, 4);
    LeRoundTrip(r.len, 2);
    assert RefBytes(r)[0..4] == Le(r.offset, 4) && RefBytes(r)[4..6] == Le(r.len, 2);
  }

  lemma Pieces(a: seq<Byte>, b: seq<Byte>, c: seq<Byte>, d: seq<Byte>, e: seq<Byte>, f: seq<Byte>, g: seq<Byte>,
               h: seq<Byte>, i: seq<Byte>)
    requires |a| == 4 && |b| == 2 && |c| == 2 && |d| == 4 && |e| == 4 && |f| == 4 && |g| == 4 && |h| == 4 && |i| == 4
    ensures var x := a + b + c + d + e + f + g + h + i;
      && x[0..4] == a && x[4..6] == b && x[8..12] == d && x[12..16] == e && x[16..20] == f && x[20..24] == g
      && x[24..28] == h && x[28..32] == i
  {
  }

  lemma Front<T>(a: seq<T>, b: seq<T>, from: nat, to: nat)
    requires from <= to <= |a|
    ensures (a + b)[from..to] == a[from..to]
  {
  }

  lemma HeaderRead(data: seq<Byte>, ps: seq<Package>, strings: seq<Byte>, refs: Refs, order: seq<nat>)
    requires Holds(data, ps, strings, refs, order)
    ensures |data| == HEADER_SIZE + 60 * |ps| + |strings| < 0x1_0000_0000 && |ps| < 0x1_0000 && |order| == |ps|
    ensures data[0..4] == MAGIC && U16(data, 4) == 1 && U32(data, 28) == |data|
    ensures Header(U32(data, 8), U32(data, 12), U32(data, 16), U32(data, 20), U32(data, 24))
        == HeaderFor(|ps|, |strings|)
    ensures forall a, b :: 0 <= a < b < |order| ==>
        order[a] < |ps| && order[b] < |ps| && LexLe(ps[order[a]].name, ps[order[b]].name)
  {
    hide Le, FromLe, LexLe, IndexSection, EntrySection, TableOk, Interned;
    var n, m := |ps|, |strings|;
    var head := HeaderBytes(n, m);
    var rest := IndexSection(ps, refs, order, |order|) + EntrySection(ps, refs, |ps|) + strings;
    assert data == head + rest;
    Sizes();
    Pieces(MAGIC, Le(1, 2), Le(0, 2), Le(n, 4), Le(HEADER_SIZE, 4), Le(HEADER_SIZE + 8 * n, 4),
           Le(HEADER_SIZE + 60 * n, 4), Le(m, 4), Le(HEADER_SIZE + 60 * n + m, 4));
    LeRoundTrip(1, 2);
    LeRoundTrip(n, 4);
    LeRoundTrip(HEADER_SIZE, 4);
    LeRoundTrip(HEADER_SIZE + 8 * n, 4);
    LeRoundTrip(HEADER_SIZE + 60 * n, 4);
    LeRoundTrip(m, 4);
    LeRoundTrip(HEADER_SIZE + 60 * n + m, 4);
    Front(head, rest, 0, 4);
    Front(head, rest, 4, 6);
    Front(head, rest, 8, 12);
    Front(head, rest, 12, 16);
    Front(head, rest, 16, 20);
    Front(head, rest, 20, 24);
    Front(head, rest, 24, 28);
    Front(head, rest, 28, 32);
  }

  /** The four parts of the file. */
  lemma Parts(data: seq<Byte>, ps: seq<Package>, strings: seq<Byte>, refs: Refs, order: seq<nat>)
    requires Holds(data, ps, strings, refs, order)
    ensures |order| == |ps| && (forall k :: 0 <= k < |order| ==> order[k] < |ps|)
    ensures |data| == HEADER_SIZE + 60 * |ps| + |strings|
    ensures data[32..32 + 8 * |ps|] == IndexSection(ps, refs, order, |order|)
    ensures data[32 + 8 * |ps|..32 + 60 * |ps|] == EntrySection(ps, refs, |ps|)
    ensures data[32 + 60 * |ps|..] == strings
  {
    hide HeaderBytes, IndexSection, EntrySection, TableOk, Interned;
    var a, b, c := HeaderBytes(|ps|, |strings|), IndexSection(ps, refs, order, |order|), EntrySection(ps, refs, |ps|);
    assert data == a + b + c + strings;
    assert data[32..32 + 8 * |ps|] == b;
    assert data[32 + 8 * |ps|..32 + 60 * |ps|] == c;
    assert data[32 + 60 * |ps|..] == strings;
  }

  /** A reference found in the file gives its string. */
  lemma StringFound(ix: Index, strings: seq<Byte>, r: StringRef, s: seq<Byte>)
    requires ix.h.stringsOffset + |strings| == |ix.data| && ix.data[ix.h.stringsOffset..] == strings
    requires Resolves(strings, r, s)
    ensures Resolve(ix, r.offset, r.len) == s
  {
    if s != [] {
      assert strings[r.offset..r.offset + r.len]
          == ix.data[ix.h.stringsOffset + r.offset..ix.h.stringsOffset + r.offset + r.len];
    }
  }

  lemma LookupResolves(strings: seq<Byte>, refs: Refs, s: seq<Byte>)
    requires TableOk(strings, refs) && (s != [] ==> s in refs)
    ensures Resolves(strings, Lookup(refs, s), s)
  {
  }

  /** Index record `n`. */
  lemma RecordRead(data: seq<Byte>, ps: seq<Package>, strings: seq<Byte>, refs: Refs, order: seq<nat>, n: nat)
    requires Holds(data, ps, strings, refs, order) && n < |ps|
    ensures var ix := Index(data, HeaderFor(|ps|, |strings|));
      && InBounds(ix) && |order| == |ps| && order[n] < |ps|
      && EntryAt(ix, n) == order[n] && NameAt(ix, n) == ps[order[n]].name
      && U32(data, 32 + 8 * n) + U16(data, 32 + 8 * n + 4) <= |strings|
  {
    hide Le, FromLe, LexLe, IndexSection, EntrySection, HeaderBytes, FileBytes, TableOk, Interned, Resolves;
    hide RefBytes, Resolve;
    Parts(data, ps, strings, refs, order);
    IndexAt(ps, refs, order, |order|, n);
    var i := order[n];
    var r := Lookup(refs, ps[i].name);
    NameResolves(ps, strings, refs, order, i);
    SliceSlice(data, 32, 32 + 8 * |ps|, 8 * n, 8 * n + 8);
    RecordFields(data, 32 + 8 * n, ps, refs, i);
    StringFound(Index(data, HeaderFor(|ps|, |strings|)), strings, r, ps[i].name);
  }

  lemma NameResolves(ps: seq<Package>, strings: seq<Byte>, refs: Refs, order: seq<nat>, i: nat)
    requires TableOk(strings, refs) && Interned(ps, |ps|, refs) && i < |ps|
    ensures var r := Lookup(refs, ps[i].name);
      Resolves(strings, r, ps[i].name) && r.offset < 0x1_0000_0000 && r.len < 0x1_0000 && r.offset + r.len <= |strings|
  {
    assert Fields(ps[i])[0] == ps[i].name;
    LookupResolves(strings, refs, ps[i].name);
  }

  lemma RecordFields(data: seq<Byte>, at: nat, ps: seq<Package>, refs: Refs, i: nat)
    requires at + 8 <= |data| && i < |ps| && i < 0x1_0000 && data[at..at + 8] == IndexRecord(ps, refs, i)
    requires var r := Lookup(refs, ps[i].name); r.offset < 0x1_0000_0000 && r.len < 0x1_0000
    ensures var r := Lookup(refs, ps[i].name);
      U32(data, at) == r.offset && U16(data, at + 4) == r.len && U16(data, at + 6) == i
  {
    hide Le, FromLe, RefBytes;
    var r := Lookup(refs, ps[i].name);
    RefRead(r);
    Sizes();
    LeRoundTrip(i, 2);
    var x := data[at..at + 8];
    assert x[0..4] == RefBytes(r)[0..4] && x[4..6] == RefBytes(r)[4..6] && x[6..8] == Le(i, 2);
    SliceSlice(data, at, at + 8, 0, 4);
    SliceSlice(data, at, at + 8, 4, 6);
    SliceSlice(data, at, at + 8, 6, 8);
  }

  /** Entry `i`. */
  lemma PackageRead(data: seq<Byte>, ps: seq<Package>, strings: seq<Byte>, refs: Refs, order: seq<nat>, i: nat)
    requires Holds(data, ps, strings, refs, order) && i < |ps|
    ensures var ix := Index(data, HeaderFor(|ps|, |strings|)); InBounds(ix) && PackageAt(ix, i) == ps[i]
  {
    hide Le, LexLe, IndexSection, EntrySection, HeaderBytes, FileBytes, TableOk, Interned, Resolves, RefBytes;
    hide Resolve, FieldAt, FieldRefs;
    var ix := Index(data, HeaderFor(|ps|, |strings|));
    Parts(data, ps, strings, refs, order);
    EntrySectionAt(ps, refs, |ps|, i);
    SliceSlice(data, 32 + 8 * |ps|, 32 + 60 * |ps|, 52 * i, 52 * i + 52);
    var at := 32 + 8 * |ps| + 52 * i;
    assert data[at..at + 52] == EntryRecord(refs, ps[i]);
    assert data[at + 48] == data[at..at + 52][48] == ps[i].category;
    forall j: nat | j < 8 ensures FieldAt(ix, i, j) == Fields(ps[i])[j] {
      FieldRead(ix, ps, strings, refs, i, j);
    }
    var f := seq(8, j requires 0 <= j < 8 => FieldAt(ix, i, j));
    assert f == Fields(ps[i]);
  }

  lemma FieldRead(ix: Index, ps: seq<Package>, strings: seq<Byte>, refs: Refs, i: nat, j: nat)
    requires i < |ps| && j < 8 && TableOk(strings, refs) && Interned(ps, |ps|, refs)
    requires ix.h == HeaderFor(|ps|, |strings|) && InBounds(ix)
    requires |ix.data| == HEADER_SIZE + 60 * |ps| + |strings| && ix.data[32 + 60 * |ps|..] == strings
    requires ix.data[32 + 8 * |ps| + 52 * i..32 + 8 * |ps| + 52 * i + 52] == EntryRecord(refs, ps[i])
    ensures FieldAt(ix, i, j) == Fields(ps[i])[j]
  {
    hide Le, FromLe, TableOk, Interned, Resolves, RefBytes, Resolve, FieldRefs;
    var s, at := Fields(ps[i])[j], 32 + 8 * |ps| + 52 * i;
    var r := Lookup(refs, s);
    FieldResolves(ps, strings, refs, i, j);
    FieldRefsAt(refs, Fields(ps[i]), 8, j);
    RefRead(r);
    var e := EntryRecord(refs, ps[i]);
    assert e[6 * j..6 * j + 6] == FieldRefs(refs, Fields(ps[i]), 8)[6 * j..6 * j + 6];
    SliceSlice(ix.data, at, at + 52, 6 * j, 6 * j + 6);
    SliceSlice(ix.data, at + 6 * j, at + 6 * j + 6, 0, 4);
    SliceSlice(ix.data, at + 6 * j, at + 6 * j + 6, 4, 6);
    StringFound(ix, strings, r, s);
  }

  lemma FieldResolves(ps: seq<Package>, strings: seq<Byte>, refs: Refs, i: nat, j: nat)
    requires TableOk(strings, refs) && Interned(ps, |ps|, refs) && i < |ps| && j < 8
    ensures var r := Lookup(refs, Fields(ps[i])[j]);
      Resolves(strings, r, Fields(ps[i])[j]) && r.offset < 0x1_0000_0000 && r.len < 0x1_0000
  {
    LookupResolves(strings, refs, Fields(ps[i])[j]);
  }

  /** The index agrees with the list: it opens, holds every package under its number, and a name is
      found exactly when some package has it. */
  method IndexRoundTrip(ps: seq<Package>, i: nat, name: seq<Byte>)
      returns (isOpen: bool, got: Option<Package>, found: Option<nat>)
    requires Limits(ps)
    ensures isOpen && got == if i < |ps| then Some(ps[i]) else None
    ensures found.Some? ==> found.value < |ps| && ps[found.value].name == name
    ensures found.Some? <==> exists k :: 0 <= k < |ps| && ps[k].name == name
  {
    hide Holds, Limits, NameAt, EntryAt, PackageAt;
    var data, strings, refs, order := Build(ps);
    var r := FromBytes(data, ps, strings, refs, order);
    var ix := r.index;
    isOpen := r.Ok?;
    got := Get(ix, i);
    if i < |ps| {
      PackageRead(data, ps, strings, refs, order, i);
    }
    found := Find(ix, name);
    NamesAgree(data, ps, strings, refs, order, name);
  }

  lemma NamesAgree(data: seq<Byte>, ps: seq<Package>, strings: seq<Byte>, refs: Refs, order: seq<nat>, name: seq<Byte>)
    requires Holds(data, ps, strings, refs, order) && InBounds(Index(data, HeaderFor(|ps|, |strings|)))
    ensures var ix := Index(data, HeaderFor(|ps|, |strings|));
      && (forall n :: 0 <= n < |ps| && NameAt(ix, n) == name ==>
          EntryAt(ix, n) < |ps| && ps[EntryAt(ix, n)].name == name)
      && ((exists k :: 0 <= k < |ps| && ps[k].name == name) ==> exists n :: 0 <= n < |ps| && NameAt(ix, n) == name)
  {
    hide NameAt, EntryAt, FileBytes, Limits, TableOk, Interned, LexLe;
    var ix := Index(data, HeaderFor(|ps|, |strings|));
    forall n | 0 <= n < |ps| && NameAt(ix, n) == name ensures EntryAt(ix, n) < |ps| && ps[EntryAt(ix, n)].name == name {
      RecordRead(data, ps, strings, refs, order, n);
    }
    if k :| 0 <= k < |ps| && ps[k].name == name {
      assert k in order;
      var n :| 0 <= n < |order| && order[n] == k;
      RecordRead(data, ps, strings, refs, order, n);
    }
  }
}
