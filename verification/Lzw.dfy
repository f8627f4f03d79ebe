/** LZW as in compress(1): an encoder with an open-addressed dictionary and a decoder that is
    one phrase behind it. */
module Lzw {
  import opened Bytes
  import opened LsbFirst

  const MIN_BITS: nat := 9
  const CLEAR_CODE: nat := 256
  const FIRST_CODE: nat := 257

  // ----- phrases -----

  /** What phrase `i` may be: a single byte, or a dictionary entry, which is an earlier phrase
      with the first byte of the phrase after it. The latest entry (code first + i - 1) uses the
      first byte of phrase `i` itself. */
  ghost predicate PhraseOk(phrases: seq<seq<Byte>>, code: nat, i: nat, first: nat)
    requires i < |phrases| && forall k :: 0 <= k < |phrases| ==> phrases[k] != []
  {
    if code < 256 then phrases[i] == [code]
    else first <= code < first + i &&
         phrases[i] == phrases[code - first] + [phrases[code - first + 1][0]]
  }

  ghost predicate Phrases(phrases: seq<seq<Byte>>, codes: seq<nat>, first: nat, maxBits: nat) {
    && |phrases| == |codes|
    && (forall k :: 0 <= k < |phrases| ==> phrases[k] != [])
    && forall i :: 0 <= i < |phrases| ==> PhraseOk(phrases, codes[i], i, first) && codes[i] < Pow2(maxBits)
  }

  function Concat(phrases: seq<seq<Byte>>): seq<Byte> {
    if phrases == [] then [] else Concat(phrases[..|phrases| - 1]) + phrases[|phrases| - 1]
  }

  /** The width of code `i`: the encoder's dictionary then reaches up to first + i - 1. */
  function WidthFrom(n: nat, bits: nat, maxBits: nat): (w: nat)
    requires bits <= maxBits
    ensures bits <= w <= maxBits
    decreases maxBits - bits
  {
    if bits == maxBits || n <= Pow2(bits) then bits else WidthFrom(n, bits + 1, maxBits)
  }

  function Width(i: nat, first: nat, maxBits: nat): nat
    requires maxBits >= MIN_BITS
  {
    WidthFrom(first + i, MIN_BITS, maxBits)
  }

  function CodeBits(codes: seq<nat>, first: nat, maxBits: nat): seq<Bit>
    requires maxBits >= MIN_BITS
  {
    if codes == [] then []
    else
      var last := |codes| - 1;
      CodeBits(codes[..last], first, maxBits) + LsbBits(codes[last], Width(last, first, maxBits))
  }

  /** `bits` is the right width for a dictionary that reaches up to `n - 1`. */
  ghost predicate WidthIs(bits: nat, n: nat, maxBits: nat) {
    && MIN_BITS <= bits <= maxBits
    && (bits == maxBits || n <= Pow2(bits))
    && (bits == MIN_BITS || n > Pow2(bits - 1))
  }

  lemma {:induction false} WidthFromIs(n: nat, from: nat, bits: nat, maxBits: nat)
    requires MIN_BITS <= from <= bits && WidthIs(bits, n, maxBits)
    ensures WidthFrom(n, from, maxBits) == bits
    decreases bits - from
  {
    if from < bits {
      Pow2Monotone(from, bits - 1);
      WidthFromIs(n, from + 1, bits, maxBits);
    }
  }

  /** One more entry needs at most one more bit. */
  lemma WidthStep(bits: nat, n: nat, maxBits: nat)
    requires WidthIs(bits, n, maxBits)
    ensures WidthIs(if n + 1 > Pow2(bits) && bits < maxBits then bits + 1 else bits, n + 1, maxBits)
  {
    assert Pow2(bits + 1) == 2 * Pow2(bits);
  }

  /** 1 << k in 16 bits: the shift amount is taken modulo 16. */
  function Shl16(k: nat): nat
    requires k <= 16
  {
    if k == 16 then 1 else Pow2(k)
  }

  // ----- the encoder's dictionary -----

  datatype Entry = Entry(key: seq<Byte>, code: nat)

  type Slots = seq<Option<Entry>>

  function HashFrom(h: nat, key: seq<Byte>): nat
    decreases |key|
  {
    if key == [] then h else HashFrom((h * 31 + key[0]) % 0x1_0000_0000, key[1..])
  }

  function HashKey(key: seq<Byte>): (r: nat)
    ensures r < 65536
  {
    HashFrom(0, key) % 65536
  }

  /** Linear probing for `key`, `n` more probes. */
  function Probe(t: Slots, key: seq<Byte>, idx: nat, n: nat): Option<nat>
    requires |t| == 65536 && idx < 65536
    decreases n
  {
    if n == 0 || t[idx].None? then None
    else if t[idx].value.key == key then Some(t[idx].value.code)
    else Probe(t, key, (idx + 1) % 65536, n - 1)
  }

  function Find(t: Slots, key: seq<Byte>): Option<nat>
    requires |t| == 65536
  {
    Probe(t, key, HashKey(key), 1000)
  }

  lemma {:induction false} ProbeFinds(t: Slots, key: seq<Byte>, idx: nat, n: nat)
    requires |t| == 65536 && idx < 65536 && Probe(t, key, idx, n).Some?
    ensures exists k :: 0 <= k < 65536 && t[k] == Some(Entry(key, Probe(t, key, idx, n).value))
    decreases n
  {
    if t[idx].value.key != key {
      ProbeFinds(t, key, (idx + 1) % 65536, n - 1);
    }
  }

  method HashKeyLoop(prefix: seq<Byte>) returns (r: nat)
    ensures r == HashKey(prefix)
  {
    var h: nat := 0;
    var i: nat := 0;
    assert prefix[0..] == prefix;
    while i < |prefix|
      invariant i <= |prefix| && HashFrom(h, prefix[i..]) == HashFrom(0, prefix)
    {
      assert prefix[i..][1..] == prefix[i + 1..];
      h := (h * 31 + prefix[i]) % 0x1_0000_0000;
      i := i + 1;
    }
    r := h % 65536;
  }

  method FindCode(dict: array<Option<Entry>>, key: seq<Byte>) returns (code: Option<nat>)
    requires dict.Length == 65536
    ensures code == Find(dict[..], key)
  {
    var idx: nat := HashKeyLoop(key);
    var i: nat := 0;
    while i < 1000
      invariant i <= 1000 && idx < 65536
      invariant Probe(dict[..], key, idx, 1000 - i) == Find(dict[..], key)
    {
      if dict[idx].None? {
        return None;
      }
      if dict[idx].value.key == key {
        return Some(dict[idx].value.code);
      }
      idx := (idx + 1) % 65536;
      i := i + 1;
    }
    return None;
  }

  /** The first free slot of the `n` probed from `idx` on. */
  function Free(t: Slots, idx: nat, n: nat): (at: Option<nat>)
    requires |t| == 65536 && idx < 65536
    ensures at.Some? ==> at.value < 65536 && t[at.value].None?
    decreases n
  {
    if n == 0 then None else if t[idx].None? then Some(idx) else Free(t, (idx + 1) % 65536, n - 1)
  }

  function FreeFor(t: Slots, key: seq<Byte>): (at: Option<nat>)
    requires |t| == 65536
    ensures at.Some? ==> at.value < 65536 && t[at.value].None?
  {
    Free(t, HashKey(key), 1000)
  }

  /** The dictionary with an entry more, unless every slot within reach is taken. */
  function Inserted(t: Slots, key: seq<Byte>, code: nat): (t': Slots)
    requires |t| == 65536
    ensures |t'| == 65536
  {
    var at := FreeFor(t, key);
    if at.Some? then t[at.value := Some(Entry(key, code))] else t
  }

  /** A new entry is found from then on. */
  lemma {:induction false} InsertedFound(t: Slots, key: seq<Byte>, code: nat, idx: nat, n: nat)
    requires |t| == 65536 && idx < 65536 && Probe(t, key, idx, n).None? && Free(t, idx, n).Some?
    ensures Probe(t[Free(t, idx, n).value := Some(Entry(key, code))], key, idx, n) == Some(code)
    decreases n
  {
    if t[idx].Some? {
      InsertedFound(t, key, code, (idx + 1) % 65536, n - 1);
    }
  }

  /** What was found is still found. */
  lemma {:induction false} OthersFound(t: Slots, at: nat, e: Entry, key: seq<Byte>, idx: nat, n: nat)
    requires |t| == 65536 && idx < 65536 && at < 65536 && t[at].None? && Probe(t, key, idx, n).Some?
    ensures Probe(t[at := Some(e)], key, idx, n) == Probe(t, key, idx, n)
    decreases n
  {
    if t[idx].value.key != key {
      OthersFound(t, at, e, key, (idx + 1) % 65536, n - 1);
    }
  }

  method InsertCode(dict: array<Option<Entry>>, key: seq<Byte>, code: nat)
    requires dict.Length == 65536
    modifies dict
    ensures dict[..] == Inserted(old(dict[..]), key, code)
  {
    hide HashKey;
    var idx: nat := HashKeyLoop(key);
    ghost var t := dict[..];
    var i: nat := 0;
    while i < 1000
      invariant i <= 1000 && idx < 65536 && dict[..] == t
      invariant Free(t, idx, 1000 - i) == FreeFor(t, key)
    {
      if dict[idx].None? {
        dict[idx] := Some(Entry(key, code));
        return;
      }
      idx := (idx + 1) % 65536;
      i := i + 1;
    }
  }

  // ----- the encoder -----

  /** The first byte of phrase `k`, when the phrase under way starts with `first`. */
  function FirstOf(phrases: seq<seq<Byte>>, k: nat, first: Byte): Byte
    requires k <= |phrases| && forall i :: 0 <= i < |phrases| ==> phrases[i] != []
  {
    if k < |phrases| then phrases[k][0] else first
  }

  ghost predicate EntryOk(e: Entry, phrases: seq<seq<Byte>>, first: Byte, maxBits: nat)
    requires forall i :: 0 <= i < |phrases| ==> phrases[i] != []
  {
    if e.code < 256 then e.key == [e.code]
    else
      var j := e.code - FIRST_CODE;
      0 <= j < |phrases| && e.code < Pow2(maxBits) && e.key == phrases[j] + [FirstOf(phrases, j + 1, first)]
  }

  /** Every entry is a byte or a phrase extended by the byte that followed it; the single bytes
      sit where their hash puts them. */
  ghost predicate DictOk(t: Slots, phrases: seq<seq<Byte>>, first: Byte, maxBits: nat)
    requires forall i :: 0 <= i < |phrases| ==> phrases[i] != []
  {
    && |t| == 65536
    && (forall k :: 0 <= k < 65536 && t[k].Some? ==> EntryOk(t[k].value, phrases, first, maxBits))
    && forall b :: 0 <= b < 256 ==> t[b] == Some(Entry([b], b))
  }

  lemma HashOfByte(b: Byte)
    ensures HashKey([b]) == b
  {
    assert [b][1..] == [];
    assert HashFrom(0, [b]) == HashFrom(b, []);
  }

  method InitDict() returns (dict: array<Option<Entry>>)
    ensures fresh(dict) && dict.Length == 65536
    ensures forall maxBits, first :: DictOk(dict[..], [], first, maxBits)
  {
    dict := new Option<Entry>[65536](_ => None);
    var i: nat := 0;
    while i < 256
      invariant i <= 256
      invariant forall k :: 0 <= k < 65536 ==> dict[k] == if k < i then Some(Entry([k], k)) else None
    {
      HashOfByte(i);
      ghost var before := dict[..];
      InsertCode(dict, [i], i);
      assert dict[..] == before[i := Some(Entry([i], i))];
      i := i + 1;
    }
  }

  /** The next code, before it wraps in 16 bits. */
  function Counter(n: nat, maxBits: nat): nat {
    if n <= Pow2(maxBits) then n else Pow2(maxBits)
  }

  /** The state of the encoder between two phrases, or inside one. */
  ghost predicate EncoderOk(t: Slots, phrases: seq<seq<Byte>>, codes: seq<nat>, current: seq<Byte>, nextCode: nat,
                            bits: nat, maxBits: nat, written: seq<Bit>)
  {
    && MIN_BITS <= maxBits && current != [] && Phrases(phrases, codes, FIRST_CODE, maxBits)
    && DictOk(t, phrases, current[0], maxBits) && Find(t, current).Some?
    && nextCode == Counter(FIRST_CODE + |phrases|, maxBits) % 65536
    && WidthIs(bits, FIRST_CODE + |phrases|, maxBits)
    && written == CodeBits(codes, FIRST_CODE, maxBits)
  }

  /** The code found for the current phrase is a legal next code. */
  lemma NextPhrase(t: Slots, phrases: seq<seq<Byte>>, codes: seq<nat>, current: seq<Byte>, nextCode: nat,
                   bits: nat, maxBits: nat, written: seq<Bit>)
    requires EncoderOk(t, phrases, codes, current, nextCode, bits, maxBits, written)
    ensures var c := Find(t, current).value;
      && c < Pow2(bits)
      && Phrases(phrases + [current], codes + [c], FIRST_CODE, maxBits)
      && CodeBits(codes + [c], FIRST_CODE, maxBits) == written + LsbBits(c, bits)
      && Concat(phrases + [current]) == Concat(phrases) + current
  {
    var c := Find(t, current).value;
    FoundEntry(t, phrases, current, maxBits);
    CodeFitsWidth(c, FIRST_CODE + |phrases|, bits, maxBits);
    PhrasesGrow(phrases, codes, current, c, maxBits);
    var p, q := phrases + [current], codes + [c];
    assert p[..|phrases|] == phrases && q[..|codes|] == codes;
    WidthFromIs(FIRST_CODE + |phrases|, MIN_BITS, bits, maxBits);
  }

  lemma FoundEntry(t: Slots, phrases: seq<seq<Byte>>, current: seq<Byte>, maxBits: nat)
    requires (forall i :: 0 <= i < |phrases| ==> phrases[i] != []) && current != []
    requires DictOk(t, phrases, current[0], maxBits) && Find(t, current).Some?
    ensures EntryOk(Entry(current, Find(t, current).value), phrases, current[0], maxBits)
  {
    ProbeFinds(t, current, HashKey(current), 1000);
    var k :| 0 <= k < 65536 && t[k] == Some(Entry(current, Find(t, current).value));
    assert EntryOk(t[k].value, phrases, current[0], maxBits);
  }

  lemma PhrasesGrow(phrases: seq<seq<Byte>>, codes: seq<nat>, current: seq<Byte>, c: nat, maxBits: nat)
    requires Phrases(phrases, codes, FIRST_CODE, maxBits) && current != []
    requires EntryOk(Entry(current, c), phrases, current[0], maxBits) && c < Pow2(maxBits)
    ensures Phrases(phrases + [current], codes + [c], FIRST_CODE, maxBits)
  {
    var p, q := phrases + [current], codes + [c];
    forall i | 0 <= i < |p| ensures PhraseOk(p, q[i], i, FIRST_CODE) && q[i] < Pow2(maxBits) {
      if i < |phrases| {
        assert PhraseOk(phrases, codes[i], i, FIRST_CODE);
      }
    }
  }

  lemma CodeFitsWidth(c: nat, n: nat, bits: nat, maxBits: nat)
    requires c < 256 || (c < n && c < Pow2(maxBits))
    requires MIN_BITS <= maxBits && WidthIs(bits, n, maxBits)
    ensures c < Pow2(bits) && c < Pow2(maxBits)
  {
    Pow2Eight();
    Pow2Monotone(9, bits);
    Pow2Monotone(9, maxBits);
  }

  /** Adding the entry for the phrase just written, or failing to: both keep the state. */
  lemma AfterAdd(t: Slots, t': Slots, phrases: seq<seq<Byte>>, codes: seq<nat>, current: seq<Byte>, byte: Byte,
                 nextCode: nat, nextCode': nat, bits: nat, bits': nat, maxBits: nat, written: seq<Bit>, k: nat)
    requires EncoderOk(t, phrases, codes, current, nextCode, bits, maxBits, written)
    requires maxBits <= 16 && nextCode == Counter(FIRST_CODE + |phrases|, maxBits)
    requires t' == t || (nextCode < Pow2(maxBits) && k < 65536 && t[k] == None &&
                         t' == t[k := Some(Entry(current + [byte], nextCode))])
    requires if nextCode < Pow2(maxBits)
             then nextCode' == (nextCode + 1) % 65536
                  && bits' == (if nextCode + 1 > Pow2(bits) && bits < maxBits then bits + 1 else bits)
             else nextCode' == nextCode && bits' == bits
    ensures var c := Find(t, current).value;
      EncoderOk(t', phrases + [current], codes + [c], [byte], nextCode', bits', maxBits, written + LsbBits(c, bits))
  {
    hide Find, CodeBits, LsbBits, Pow2, DictOk, Concat;
    NextPhrase(t, phrases, codes, current, nextCode, bits, maxBits, written);
    var p := phrases + [current];
    DictGrows(t, t', phrases, current, byte, nextCode, maxBits, k);
    SingleFound(t', byte);
    WidthStep(bits, FIRST_CODE + |phrases|, maxBits);
    if nextCode >= Pow2(maxBits) {
      FullWidth(bits, FIRST_CODE + |phrases|, maxBits);
    }
  }

  lemma Pow2Strict(m: nat, n: nat)
    ensures m < n ==> Pow2(m) < Pow2(n)
  {
    if m < n {
      Pow2Monotone(m + 1, n);
    }
  }

  lemma FullWidth(bits: nat, n: nat, maxBits: nat)
    requires WidthIs(bits, n, maxBits) && n >= Pow2(maxBits)
    ensures bits == maxBits
  {
    hide Pow2;
    Pow2Strict(bits, maxBits);
  }

  lemma DictGrows(t: Slots, t': Slots, phrases: seq<seq<Byte>>, current: seq<Byte>, byte: Byte, nextCode: nat,
                  maxBits: nat, k: nat)
    requires (forall i :: 0 <= i < |phrases| ==> phrases[i] != []) && current != []
    requires DictOk(t, phrases, current[0], maxBits)
    requires nextCode < Pow2(maxBits) ==> nextCode == FIRST_CODE + |phrases|
    requires t' == t || (nextCode < Pow2(maxBits) && k < 65536 && t[k] == None &&
                         t' == t[k := Some(Entry(current + [byte], nextCode))])
    ensures DictOk(t', phrases + [current], byte, maxBits)
  {
    var p := phrases + [current];
    forall h | 0 <= h < 65536 && t'[h].Some? ensures EntryOk(t'[h].value, p, byte, maxBits) {
      if t'[h] == t[h] {
        var e := t[h].value;
        assert EntryOk(e, phrases, current[0], maxBits);
        if e.code >= 256 {
          var j := e.code - FIRST_CODE;
          assert FirstOf(p, j + 1, byte) == FirstOf(phrases, j + 1, current[0]);
        }
      } else {
        assert h == k && t'[h].value == Entry(current + [byte], nextCode);
        assert p[|phrases|] == current;
      }
    }
  }

  /** Does the 16-bit code counter stay in range until the last addition? With 65279 of them every
      code up to 65535 is taken, and one more would be given the code of a byte. */
  predicate InRange(maxBits: nat, added: nat) {
    maxBits < 16 || added <= 65279
  }

  ghost predicate CodesBelow(t: Slots) {
    forall k :: 0 <= k < |t| && t[k].Some? ==> t[k].value.code < 65536
  }

  lemma FoundBelow(t: Slots, key: seq<Byte>)
    requires |t| == 65536 && CodesBelow(t) && Find(t, key).Some?
    ensures Find(t, key).value < 65536
  {
    ProbeFinds(t, key, HashKey(key), 1000);
  }

  /** At the last addition the counter allows, codes are 16 bits wide. */
  lemma AtLimit(bits: nat, n: nat)
    requires WidthIs(bits, n, 16) && n >= 65535
    ensures bits == 16
  {
    Pow2Eight();
    assert Pow2(16) == 2 * Pow2(15);
    if bits < 16 {
      Pow2Monotone(bits, 15);
    }
  }

  lemma StartOk(t: Slots, b: Byte, maxBits: nat)
    requires MIN_BITS <= maxBits && DictOk(t, [], b, maxBits)
    ensures EncoderOk(t, [], [], [b], FIRST_CODE, MIN_BITS, maxBits, [])
    ensures CodesBelow(t)
  {
    Pow2Eight();
    Pow2Monotone(9, maxBits);
    SingleFound(t, b);
    forall k | 0 <= k < |t| && t[k].Some? ensures t[k].value.code < 65536 {
      assert EntryOk(t[k].value, [], b, maxBits);
    }
  }

  /** Nothing but the current phrase changes when a longer one is found. */
  lemma Extend(t: Slots, phrases: seq<seq<Byte>>, codes: seq<nat>, current: seq<Byte>, byte: Byte, nextCode: nat,
               bits: nat, maxBits: nat, written: seq<Bit>)
    requires EncoderOk(t, phrases, codes, current, nextCode, bits, maxBits, written)
    requires Find(t, current + [byte]).Some?
    ensures EncoderOk(t, phrases, codes, current + [byte], nextCode, bits, maxBits, written)
  {
  }

  /** The counter arithmetic of one addition, 16-bit wrap included. */
  lemma CounterStep(nextCode: nat, bits: nat, phrases: nat, maxBits: nat)
    requires MIN_BITS <= maxBits <= 16 && InRange(maxBits, phrases + 1)
    requires WidthIs(bits, FIRST_CODE + phrases, maxBits)
    requires nextCode == Counter(FIRST_CODE + phrases, maxBits) % 65536
    ensures nextCode == Counter(FIRST_CODE + phrases, maxBits)
    ensures bits < maxBits && nextCode < Pow2(maxBits) ==>
              (nextCode + 1) % 65536 == nextCode + 1 && Shl16(bits) == Pow2(bits)
  {
    hide Pow2;
    Pow2Limits(bits, maxBits);
    if FIRST_CODE + phrases == 65535 && maxBits == 16 {
      AtLimit(bits, FIRST_CODE + phrases);
    }
    Pow2Sixteen();
  }

  lemma Pow2Sixteen()
    ensures Pow2(16) == 65536
  {
    Pow2Add(8, 8);
    Pow2Eight();
  }

  /** The dictionary after the entry for `key` was due. */
  function Inserts(t: Slots, key: seq<Byte>, nextCode: nat, maxBits: nat): (t': Slots)
    requires |t| == 65536
    ensures |t'| == 65536
  {
    if nextCode < Pow2(maxBits) then Inserted(t, key, nextCode) else t
  }

  /** The entry was added, or no code was left for it. */
  predicate Keeps(t: Slots, key: seq<Byte>, nextCode: nat, maxBits: nat)
    requires |t| == 65536
  {
    nextCode < Pow2(maxBits) ==> FreeFor(t, key).Some?
  }

  // ----- phrases are as long as they can be -----

  /** Phrase `j` with the byte after it: the entry added when it was written. */
  function Longer(phrases: seq<seq<Byte>>, j: nat, first: Byte): seq<Byte>
    requires j < |phrases| && forall i :: 0 <= i < |phrases| ==> phrases[i] != []
  {
    phrases[j] + [FirstOf(phrases, j + 1, first)]
  }

  /** No phrase could have been longer: with the byte after it, it was not in the dictionary. */
  ghost predicate Longest(phrases: seq<seq<Byte>>, first: Byte, maxBits: nat)
    requires forall i :: 0 <= i < |phrases| ==> phrases[i] != []
  {
    forall i, j :: 0 <= j < i < |phrases| && FIRST_CODE + j < Pow2(maxBits) ==>
      Longer(phrases, i, first) != Longer(phrases, j, first)
  }

  /** Each phrase but the last is as long as the dictionary allowed when it was written. */
  ghost predicate Greedy(phrases: seq<seq<Byte>>, maxBits: nat) {
    && phrases != [] && (forall i :: 0 <= i < |phrases| ==> phrases[i] != [])
    && Longest(phrases[..|phrases| - 1], phrases[|phrases| - 1][0], maxBits)
  }

  /** Every entry added so far is found under its code. */
  ghost predicate Knows(t: Slots, phrases: seq<seq<Byte>>, first: Byte, maxBits: nat)
    requires |t| == 65536 && forall i :: 0 <= i < |phrases| ==> phrases[i] != []
  {
    forall j :: 0 <= j < |phrases| && FIRST_CODE + j < Pow2(maxBits) ==>
      Find(t, Longer(phrases, j, first)) == Some(FIRST_CODE + j)
  }

  /** A phrase is written when the next byte makes it unknown; its entry is then found. */
  lemma StillLongest(t: Slots, phrases: seq<seq<Byte>>, current: seq<Byte>, byte: Byte, nextCode: nat, maxBits: nat)
    requires |t| == 65536 && current != [] && forall i :: 0 <= i < |phrases| ==> phrases[i] != []
    requires Knows(t, phrases, current[0], maxBits) && Longest(phrases, current[0], maxBits)
    requires Find(t, current + [byte]).None? && Keeps(t, current + [byte], nextCode, maxBits)
    requires nextCode == Counter(FIRST_CODE + |phrases|, maxBits)
    ensures Knows(Inserts(t, current + [byte], nextCode, maxBits), phrases + [current], byte, maxBits)
    ensures Longest(phrases + [current], byte, maxBits)
  {
    hide Find, Inserted, FreeFor;
    var p, next := phrases + [current], current + [byte];
    var t' := Inserts(t, next, nextCode, maxBits);
    assert forall j :: 0 <= j < |phrases| ==> Longer(p, j, byte) == Longer(phrases, j, current[0]);
    assert Longer(p, |phrases|, byte) == next;
    forall j | 0 <= j < |p| && FIRST_CODE + j < Pow2(maxBits)
      ensures Find(t', Longer(p, j, byte)) == Some(FIRST_CODE + j)
    {
      if j < |phrases| {
        FindKept(t, next, nextCode, Longer(p, j, byte));
      } else {
        FindNew(t, next, nextCode);
      }
    }
  }

  lemma FindNew(t: Slots, key: seq<Byte>, code: nat)
    requires |t| == 65536 && Find(t, key).None? && FreeFor(t, key).Some?
    ensures Find(Inserted(t, key, code), key) == Some(code)
  {
    InsertedFound(t, key, code, HashKey(key), 1000);
  }

  lemma FindKept(t: Slots, key: seq<Byte>, code: nat, other: seq<Byte>)
    requires |t| == 65536 && Find(t, other).Some?
    ensures Find(Inserted(t, key, code), other) == Find(t, other)
  {
    if FreeFor(t, key).Some? {
      OthersFound(t, FreeFor(t, key).value, Entry(key, code), other, HashKey(other), 1000);
    }
  }

  ghost predicate Advances(nextCode: nat, nextCode': nat, bits: nat, bits': nat, maxBits: nat)
    requires bits <= maxBits <= 16
  {
    if nextCode < Pow2(maxBits)
    then nextCode' == (nextCode + 1) % 65536
        && bits' == (if nextCode' > Shl16(bits) && bits < maxBits then bits + 1 else bits)
    else nextCode' == nextCode && bits' == bits
  }

  lemma SingleFound(t: Slots, b: Byte)
    requires |t| == 65536 && t[b] == Some(Entry([b], b))
    ensures Find(t, [b]) == Some(b)
  {
    HashOfByte(b);
    assert Probe(t, [b], b, 1000) == Some(b);
  }

  lemma Added(t: Slots, t': Slots, phrases: seq<seq<Byte>>, codes: seq<nat>, current: seq<Byte>, byte: Byte,
              nextCode: nat, nextCode': nat, bits: nat, bits': nat, maxBits: nat, written: seq<Bit>)
    requires EncoderOk(t, phrases, codes, current, nextCode, bits, maxBits, written) && |t| == 65536
    requires maxBits <= 16 && InRange(maxBits, |phrases| + 1)
    requires t' == Inserts(t, current + [byte], nextCode, maxBits)
    requires bits <= maxBits && Advances(nextCode, nextCode', bits, bits', maxBits)
    ensures var c := Find(t, current).value;
      && EncoderOk(t', phrases + [current], codes + [c], [byte], nextCode', bits', maxBits, written + LsbBits(c, bits))
      && Concat(phrases + [current]) == Concat(phrases) + current
  {
    hide Find, CodeBits, LsbBits, Pow2, DictOk, WidthIs, Concat, Phrases;
    CounterStep(nextCode, bits, |phrases|, maxBits);
    var at := FreeFor(t, current + [byte]);
    AfterAdd(t, t', phrases, codes, current, byte, nextCode, nextCode', bits, bits', maxBits, written,
        if at.Some? then at.value else 0);
    NextPhrase(t, phrases, codes, current, nextCode, bits, maxBits, written);
  }

  /** When the counter leaves its range the codes are already 16 bits wide. */
  lemma LastAddition(t: Slots, phrases: seq<seq<Byte>>, codes: seq<nat>, current: seq<Byte>, nextCode: nat,
                     bits: nat, maxBits: nat, written: seq<Bit>, added: nat)
    requires maxBits <= 16 && added > 0 && !InRange(maxBits, added)
    requires InRange(maxBits, added - 1) ==>
               EncoderOk(t, phrases, codes, current, nextCode, bits, maxBits, written) && |phrases| == added - 1
    requires !InRange(maxBits, added - 1) ==> bits == 16
    ensures bits == 16
  {
    if InRange(maxBits, added - 1) {
      AtLimit(bits, FIRST_CODE + |phrases|);
    }
  }

  lemma AddedLongest(t: Slots, phrases: seq<seq<Byte>>, codes: seq<nat>, current: seq<Byte>, byte: Byte, nextCode: nat,
                     bits: nat, maxBits: nat, written: seq<Bit>)
    requires EncoderOk(t, phrases, codes, current, nextCode, bits, maxBits, written) && |t| == 65536
    requires forall i :: 0 <= i < |phrases| ==> phrases[i] != []
    requires maxBits <= 16 && InRange(maxBits, |phrases| + 1)
    requires Knows(t, phrases, current[0], maxBits) && Longest(phrases, current[0], maxBits)
    requires Find(t, current + [byte]).None? && Keeps(t, current + [byte], nextCode, maxBits)
    ensures Knows(Inserts(t, current + [byte], nextCode, maxBits), phrases + [current], byte, maxBits)
    ensures Longest(phrases + [current], byte, maxBits)
  {
    CounterStep(nextCode, bits, |phrases|, maxBits);
    StillLongest(t, phrases, current, byte, nextCode, maxBits);
  }

  /** The variables of the encoder's loop. */
  class Encoder {
    const packer: Packer
    const dict: array<Option<Entry>>
    const maxBits: nat
    var nextCode: nat
    var currentBits: nat
    var current: seq<Byte>
    ghost var phrases: seq<seq<Byte>>
    ghost var codes: seq<nat>
    var added: nat
    /** No entry has been dropped for want of a free slot. */
    ghost var kept: bool

    ghost predicate Ok()
      reads this, packer, dict
    {
      && MIN_BITS <= currentBits <= maxBits <= 16 && dict.Length == 65536
      && packer.Ok() && current != [] && nextCode < 65536
      && CodesBelow(dict[..]) && Find(dict[..], current).Some?
      && (forall b :: 0 <= b < 256 ==> dict[b] == Some(Entry([b], b)))
      && (InRange(maxBits, added) ==>
            EncoderOk(dict[..], phrases, codes, current, nextCode, currentBits, maxBits, packer.Written())
            && |phrases| == added)
      && (!InRange(maxBits, added) ==> currentBits == 16)
      && (forall i :: 0 <= i < |phrases| ==> phrases[i] != [])
      && (kept && InRange(maxBits, added) ==>
            Knows(dict[..], phrases, current[0], maxBits) && Longest(phrases, current[0], maxBits))
    }

    /** The input taken so far. */
    ghost function Consumed(): seq<Byte>
      reads this
    {
      Concat(phrases) + current
    }

    constructor (packer: Packer, dict: array<Option<Entry>>, maxBits: nat, first: Byte)
      requires MIN_BITS <= maxBits <= 16 && dict.Length == 65536 && packer.Ok() && packer.Written() == []
      requires DictOk(dict[..], [], first, maxBits)
      ensures Ok() && added == 0 && Consumed() == [first]
      ensures this.packer == packer && this.dict == dict && this.maxBits == maxBits
    {
      this.packer, this.dict, this.maxBits := packer, dict, maxBits;
      nextCode, currentBits, current := FIRST_CODE, MIN_BITS, [first];
      phrases, codes, added, kept := [], [], 0, true;
      new;
      StartOk(dict[..], first, maxBits);
    }

    /** The code of the current phrase fits the current width. */
    lemma CodeFits()
      requires Ok()
      ensures Find(dict[..], current).value < Pow2(currentBits)
    {
      if InRange(maxBits, added) {
        NextPhrase(dict[..], phrases, codes, current, nextCode, currentBits, maxBits, packer.Written());
      } else {
        FoundBelow(dict[..], current);
        Pow2Eight();
      }
    }

    /** One byte of input: extend the phrase, or write its code, add an entry and start anew. */
    method Feed(byte: Byte)
      requires Ok()
      modifies this, packer, dict
      ensures Ok() && old(added) <= added <= old(added) + 1
      ensures InRange(maxBits, added) ==> Consumed() == old(Consumed()) + [byte]
    {
      hide Find, CodeBits, LsbBits, Pow2, Phrases, DictOk, WidthIs, Shl16, Concat, EncoderOk;
      var next := current + [byte];
      Assoc(Concat(phrases), current, [byte]);
      var found := FindCode(dict, next);
      if found.Some? {
        if InRange(maxBits, added) {
          Extend(dict[..], phrases, codes, current, byte, nextCode, currentBits, maxBits, packer.Written());
        }
        current := next;
      } else {
        WriteAndAdd(byte);
      }
    }

    /** The code of the current phrase. */
    method WriteCurrent()
      requires Ok()
      modifies packer
      ensures packer.Ok()
      ensures packer.Written() == old(packer.Written()) + LsbBits(Find(dict[..], current).value, currentBits)
    {
      hide LsbBits, Find, CodesBelow, EncoderOk, Knows, Longest;
      var code := FindCode(dict, current);
      CodeFits();
      if code.Some? {
        packer.EmitCode(code.value, currentBits);
      }
    }

    method WriteAndAdd(byte: Byte)
      requires Ok() && Find(dict[..], current + [byte]).None?
      modifies this, packer, dict
      ensures Ok() && added == old(added) + 1 && current == [byte]
      ensures kept <==> old(kept) && Keeps(old(dict[..]), old(current) + [byte], old(nextCode), maxBits)
      ensures dict[..] == Inserts(old(dict[..]), old(current) + [byte], old(nextCode), maxBits)
      ensures InRange(maxBits, added) ==> Consumed() == old(Consumed()) + [byte]
    {
      hide CodeBits, LsbBits, Pow2, Phrases, DictOk, Concat, EncoderOk, WidthIs, Find, Shl16, Knows, Longest, Inserts;
      hide Keeps, Advances, CodesBelow;
      ghost var t, n0, b0, w0 := dict[..], nextCode, currentBits, packer.Written();
      ghost var p0, c0 := phrases, codes;
      WriteCurrent();
      kept := kept && Keeps(t, current + [byte], n0, maxBits);
      AddEntry(current + [byte]);
      added := added + 1;
      phrases, codes := phrases + [current], codes + [Find(t, current).value];
      if InRange(maxBits, added) {
        Added(t, dict[..], p0, c0, current, byte, n0, nextCode, b0, currentBits, maxBits, w0);
        if kept {
          AddedLongest(t, p0, c0, current, byte, n0, b0, maxBits, w0);
        }
      } else {
        LastAddition(t, p0, c0, current, n0, b0, maxBits, w0, added);
      }
      SingleFound(dict[..], byte);
      current := [byte];
    }

    /** Adds an entry under the next code and widens the codes if need be. */
    method AddEntry(key: seq<Byte>)
      requires dict.Length == 65536 && nextCode < 65536 && MIN_BITS <= currentBits <= maxBits <= 16
      requires CodesBelow(dict[..]) && forall b :: 0 <= b < 256 ==> dict[b] == Some(Entry([b], b))
      modifies this`nextCode, this`currentBits, dict
      ensures dict[..] == Inserts(old(dict[..]), key, old(nextCode), maxBits)
      ensures Advances(old(nextCode), nextCode, old(currentBits), currentBits, maxBits)
      ensures CodesBelow(dict[..]) && forall b :: 0 <= b < 256 ==> dict[b] == Some(Entry([b], b))
      ensures nextCode < 65536 && old(currentBits) <= currentBits <= maxBits
    {
      hide Pow2;
      if nextCode <= Pow2(maxBits) - 1 {
        InsertCode(dict, key, nextCode);
        nextCode := (nextCode + 1) % 65536;
        if nextCode > Shl16(currentBits) && currentBits < maxBits {
          currentBits := currentBits + 1;
        }
      }
    }

    /** The last code. */
    method Finish()
      requires Ok()
      modifies this`phrases, this`codes, packer
      ensures packer.Ok()
      ensures InRange(maxBits, added) ==>
                && Phrases(phrases, codes, FIRST_CODE, maxBits) && |phrases| == added + 1
                    && Concat(phrases) == old(Consumed())
                && packer.Written() == CodeBits(codes, FIRST_CODE, maxBits)
      ensures InRange(maxBits, added) && kept ==> Greedy(phrases, maxBits)
    {
      hide Find, CodeBits, LsbBits, Pow2, Phrases, DictOk, WidthIs, Concat, EncoderOk;
      if InRange(maxBits, added) {
        NextPhrase(dict[..], phrases, codes, current, nextCode, currentBits, maxBits, packer.Written());
      }
      WriteCurrent();
      phrases, codes := phrases + [current], codes + [Find(dict[..], current).value];
      assert phrases[..|phrases| - 1] == old(phrases);
    }
  }

  method LzwCompress(data: seq<Byte>, maxBits: nat)
      returns (output: seq<Byte>, added: nat, ghost phrases: seq<seq<Byte>>, ghost codes: seq<nat>, ghost kept: bool)
    requires MIN_BITS <= maxBits <= 16
    ensures data == [] ==> output == []
    ensures data != [] ==> added < |data|
    ensures data != [] && InRange(maxBits, added) ==>
              && |phrases| == added + 1 && Phrases(phrases, codes, FIRST_CODE, maxBits) && Concat(phrases) == data
              && exists pad :: |pad| < 8 && ByteBits(output) == CodeBits(codes, FIRST_CODE, maxBits) + pad
    ensures data != [] && InRange(maxBits, added) && kept ==> Greedy(phrases, maxBits)
  {
    hide Find, CodeBits, LsbBits, Pow2, Phrases, DictOk, WidthIs, Shl16, Concat, EncoderOk;
    phrases, codes, added, kept := [], [], 0, true;
    if data == [] {
      return [], 0, [], [], true;
    }
    var packer := new Packer();
    var dict := InitDict();
    StartOk(dict[..], data[0], maxBits);
    var enc := new Encoder(packer, dict, maxBits, data[0]);
    assert data[..1] == [data[0]];
    var i: nat := 1;
    while i < |data|
      invariant 1 <= i <= |data| && enc.Ok() && enc.added < i && enc.maxBits == maxBits
      invariant enc.packer == packer && enc.dict == dict
      invariant InRange(maxBits, enc.added) ==> enc.Consumed() == data[..i]
    {
      assert data[..i + 1] == data[..i] + [data[i]];
      enc.Feed(data[i]);
      i := i + 1;
    }
    assert data[..i] == data;
    enc.Finish();
    phrases, codes, added, kept := enc.phrases, enc.codes, enc.added, enc.kept;
    packer.Flush();
    output := packer.output;
  }

  // ----- the decoder -----

  /** What the encoder writes between two clear codes, or all of it: the phrases and their codes. */
  datatype Segment = Segment(phrases: seq<seq<Byte>>, codes: seq<nat>)

  /** The codes are those of legal phrases, and their number does not exhaust the 16-bit counter. */
  ghost predicate SegmentOk(g: Segment, first: nat, maxBits: nat) {
    Phrases(g.phrases, g.codes, first, maxBits) && (maxBits < 16 || first + |g.phrases| <= 65537)
  }

  /** The codes from `i` on. */
  function CodesFrom(codes: seq<nat>, i: nat, first: nat, maxBits: nat, rest: seq<Bit>): seq<Bit>
    requires maxBits >= MIN_BITS
    decreases |codes| - i
  {
    if i >= |codes| then rest
    else LsbBits(codes[i], Width(i, first, maxBits)) + CodesFrom(codes, i + 1, first, maxBits, rest)
  }

  /** The segments from `k` on, with clear codes between them and `tail` behind the last. */
  function SegmentsFrom(segments: seq<Segment>, k: nat, first: nat, maxBits: nat, tail: seq<Bit>): seq<Bit>
    requires maxBits >= MIN_BITS && k < |segments|
    decreases |segments| - k
  {
    CodesFrom(segments[k].codes, 0, first, maxBits, Behind(segments, k, first, maxBits, tail))
  }

  /** What follows the codes of segment `k`. */
  function Behind(segments: seq<Segment>, k: nat, first: nat, maxBits: nat, tail: seq<Bit>): seq<Bit>
    requires maxBits >= MIN_BITS && k < |segments|
    decreases |segments| - k, 0
  {
    if k + 1 == |segments| then tail
    else LsbBits(CLEAR_CODE, Width(|segments[k].codes|, first, maxBits))
         + SegmentsFrom(segments, k + 1, first, maxBits, tail)
  }

  /** Decoding ends at `tail`, after `i` codes: it is too short for a code, or starts with a code
      that has no phrase yet. */
  ghost predicate Stops(tail: seq<Bit>, i: nat, first: nat, maxBits: nat)
    requires maxBits >= MIN_BITS
  {
    var w := Width(i, first, maxBits);
    |tail| < w || FromLsb(tail[..w]) >= first + i
  }

  /** The data is that of the segments. Without block mode there is no clear code, and codes of
      phrases start at 256. */
  ghost predicate Encodes(data: seq<Byte>, segments: seq<Segment>, tail: seq<Bit>, blockMode: bool, maxBits: nat) {
    var first := FirstCode(blockMode);
    && MIN_BITS <= maxBits <= 16 && segments != [] && (blockMode || |segments| == 1)
    && (forall k :: 0 <= k < |segments| ==> SegmentOk(segments[k], first, maxBits))
    && ByteBits(data) == SegmentsFrom(segments, 0, first, maxBits, tail)
    && Stops(tail, |segments[|segments| - 1].codes|, first, maxBits)
  }

  function FirstCode(blockMode: bool): nat { if blockMode then FIRST_CODE else 256 }

  function Joined(segments: seq<Segment>): seq<Byte> {
    if segments == [] then [] else Joined(segments[..|segments| - 1]) + Concat(segments[|segments| - 1].phrases)
  }

  /** The codes as the encoder appends them and as the decoder meets them. */
  lemma {:induction false} CodesMeet(codes: seq<nat>, i: nat, first: nat, maxBits: nat, rest: seq<Bit>)
    requires i <= |codes| && maxBits >= MIN_BITS
    ensures CodeBits(codes, first, maxBits) + rest
        == CodeBits(codes[..i], first, maxBits) + CodesFrom(codes, i, first, maxBits, rest)
    decreases |codes| - i
  {
    hide LsbBits, Width;
    if i == |codes| {
      assert codes[..i] == codes;
    } else {
      CodesMeet(codes, i + 1, first, maxBits, rest);
      assert codes[..i + 1][..i] == codes[..i];
      Assoc(CodeBits(codes[..i], first, maxBits), LsbBits(codes[i], Width(i, first, maxBits)),
          CodesFrom(codes, i + 1, first, maxBits, rest));
    }
  }

  /** The dictionary of the decoder after `i` codes of a segment: it has the entries of all phrases
      but the latest, whose extension is not known yet. */
  ghost predicate DecoderOk(dict: seq<seq<Byte>>, nextCode: nat, prev: Option<seq<Byte>>, phrases: seq<seq<Byte>>,
                            i: nat, bits: nat, first: nat, maxBits: nat)
    requires i <= |phrases| && forall k :: 0 <= k < |phrases| ==> phrases[k] != []
  {
    && MIN_BITS <= maxBits <= 16 && 256 <= first <= FIRST_CODE
    && |dict| == Reached(i, first, maxBits) && nextCode == |dict| % 65536 && |dict| >= first
    && (forall b :: 0 <= b < 256 ==> dict[b] == [b])
    && (forall j :: 0 <= j < |dict| - first && j + 1 < i ==> dict[first + j] == phrases[j] + [phrases[j + 1][0]])
    && prev == (if i == 0 then None else Some(phrases[i - 1]))
    && WidthIs(bits, first + i, maxBits)
  }

  function Reached(i: nat, first: nat, maxBits: nat): nat {
    var n := if i == 0 then first else first + i - 1;
    if n <= Pow2(maxBits) then n else Pow2(maxBits)
  }

  function EntryFor(dict: seq<seq<Byte>>, code: nat, prev: Option<seq<Byte>>): Option<seq<Byte>>
    requires prev.Some? ==> prev.value != []
  {
    if code < |dict| then Some(dict[code])
    else if code == |dict| && prev.Some? then Some(prev.value + [prev.value[0]])
    else None
  }

  /** The decoder knows the phrase of the next code, even when the entry is still missing. */
  lemma EntryIsPhrase(dict: seq<seq<Byte>>, nextCode: nat, prev: Option<seq<Byte>>, phrases: seq<seq<Byte>>,
                      codes: seq<nat>, i: nat, bits: nat, first: nat, maxBits: nat)
    requires Phrases(phrases, codes, first, maxBits) && i < |phrases|
    requires DecoderOk(dict, nextCode, prev, phrases, i, bits, first, maxBits)
    ensures EntryFor(dict, codes[i], prev) == Some(phrases[i])
    ensures codes[i] < Pow2(bits) && (first == FIRST_CODE ==> codes[i] != CLEAR_CODE)
    ensures codes[i] == |dict| ==> phrases[i][0] == phrases[i - 1][0]
  {
    var c := codes[i];
    assert PhraseOk(phrases, c, i, first);
    CodeFitsWidth(c, first + i, bits, maxBits);
    Pow2Eight();
    Pow2Monotone(9, maxBits);
  }

  /** A code out of reach has no entry. */
  lemma NoEntry(dict: seq<seq<Byte>>, nextCode: nat, prev: Option<seq<Byte>>, phrases: seq<seq<Byte>>,
                i: nat, bits: nat, first: nat, maxBits: nat, code: nat)
    requires (forall k :: 0 <= k < |phrases| ==> phrases[k] != []) && i <= |phrases|
    requires DecoderOk(dict, nextCode, prev, phrases, i, bits, first, maxBits) && code >= first + i
    ensures EntryFor(dict, code, prev) == None && (first == FIRST_CODE ==> code != CLEAR_CODE)
  {
  }

  /** One step of the decoder's bookkeeping. */
  lemma DecoderStep(dict: seq<seq<Byte>>, nextCode: nat, prev: Option<seq<Byte>>, phrases: seq<seq<Byte>>,
                    i: nat, bits: nat, first: nat, maxBits: nat, dict': seq<seq<Byte>>, nextCode': nat, bits': nat)
    requires (forall k :: 0 <= k < |phrases| ==> phrases[k] != []) && i < |phrases|
    requires DecoderOk(dict, nextCode, prev, phrases, i, bits, first, maxBits)
    requires maxBits < 16 || first + |phrases| <= 65537
    requires if prev.Some? && nextCode < Pow2(maxBits)
             then Learns(dict, nextCode, prev.value + [phrases[i][0]], bits, maxBits, dict', nextCode', bits')
             else dict' == dict && nextCode' == nextCode && bits' == bits
    ensures DecoderOk(dict', nextCode', Some(phrases[i]), phrases, i + 1, bits', first, maxBits)
  {
    hide Pow2, Shl16;
    Pow2Limits(bits, maxBits);
    WidthStep(bits, first + i, maxBits);
    DecoderCounter(i, nextCode, bits, first, maxBits);
    if prev.Some? && nextCode >= Pow2(maxBits) {
      FullWidth(bits, first + i, maxBits);
    }
  }

  /** The counter of the decoder has not wrapped while there are codes to come. */
  lemma DecoderCounter(i: nat, nextCode: nat, bits: nat, first: nat, maxBits: nat)
    requires MIN_BITS <= maxBits <= 16 && 256 <= first <= FIRST_CODE && nextCode == Reached(i, first, maxBits) % 65536
    requires WidthIs(bits, first + i, maxBits) && (maxBits < 16 || first + i < 65537)
    ensures nextCode == Reached(i, first, maxBits)
    ensures bits < maxBits && nextCode < Pow2(maxBits) ==> (nextCode + 1) % 65536 == nextCode + 1
  {
    hide Pow2;
    Pow2Limits(bits, maxBits);
    Pow2Sixteen();
    if first + i == 65536 && maxBits == 16 {
      AtLimit(bits, first + i);
    }
  }

  lemma Pow2Limits(bits: nat, maxBits: nat)
    requires MIN_BITS <= bits <= maxBits <= 16
    ensures 512 <= Pow2(bits) && 512 <= Pow2(maxBits) <= 65536
    ensures maxBits < 16 ==> Pow2(maxBits) < 65536
    ensures bits < maxBits ==> Shl16(bits) == Pow2(bits)
  {
    Pow2Eight();
    Pow2Monotone(9, bits);
    Pow2Monotone(9, maxBits);
    Pow2Monotone(maxBits, 16);
    Pow2Strict(maxBits, 16);
  }

  ghost predicate Learns(dict: seq<seq<Byte>>, nextCode: nat, entry: seq<Byte>, bits: nat, maxBits: nat,
                         dict': seq<seq<Byte>>, nextCode': nat, bits': nat)
  {
    && bits <= maxBits <= 16
    && dict' == (if |dict| <= nextCode then dict + [entry] else dict)
    && nextCode' == (nextCode + 1) % 65536
    && bits' == (if nextCode' >= Shl16(bits) && bits < maxBits then bits + 1 else bits)
  }

  method LzwDecompress(data: seq<Byte>, maxBits: nat, blockMode: bool, ghost segments: seq<Segment>,
                       ghost tail: seq<Bit>)
      returns (output: seq<Byte>)
    requires MIN_BITS <= maxBits <= 16
    ensures Encodes(data, segments, tail, blockMode, maxBits) ==> output == Joined(segments)
  {
    hide Pow2, ByteBits, Phrases, Shl16, Encodes, Joined, FromLsb, Following, LsbBits, Width;
    output := [];
    ghost var on := Encodes(data, segments, tail, blockMode, maxBits);
    var dict := Singles(blockMode);
    var bitPos: nat, currentBits: nat := 0, MIN_BITS;
    var prev: Option<seq<Byte>> := None;
    var nextCode: nat := if blockMode then FIRST_CODE else 256;
    ghost var k: nat, i: nat := 0, 0;
    if on {
      DecoderStart(data, dict, segments, tail, blockMode, maxBits);
    }
    while true
      invariant MIN_BITS <= currentBits <= maxBits && nextCode < 65536 && prev != Some([])
      invariant |dict| >= (if blockMode then 257 else 256) && SinglesIn(dict)
      invariant forall c :: 0 <= c < |dict| && !(blockMode && c == 256) ==> dict[c] != []
      invariant on ==> Following(data, dict, nextCode, prev, segments, tail, blockMode, k, i, currentBits, maxBits,
                                 bitPos, output)
      decreases 8 * |data| - bitPos
    {
      var got, after := GetBits(data, bitPos, currentBits);
      if on {
        NextCode(data, dict, nextCode, prev, segments, tail, blockMode, k, i, currentBits, maxBits, bitPos, output);
      }
      if got.None? {
        break;
      }
      bitPos := after;
      var code := got.value;
      if blockMode && code == CLEAR_CODE {
        if on {
          Cleared(data, dict, dict[..257], nextCode, prev, segments, tail, k, i, currentBits, maxBits,
              bitPos - currentBits, output);
          k, i := k + 1, 0;
        }
        dict := dict[..257];
        nextCode, currentBits, prev := FIRST_CODE, MIN_BITS, None;
        continue;
      }
      var found := EntryFor(dict, code, prev);
      if found.None? {
        break;
      }
      var entry := found.value;
      ghost var d0, n0, b0, o0 := dict, nextCode, currentBits, output;
      output := output + entry;
      if prev.Some? {
        if nextCode < Pow2(maxBits) {
          if |dict| <= nextCode {
            dict := dict + [prev.value + [entry[0]]];
          }
          nextCode := (nextCode + 1) % 65536;
          if nextCode >= Shl16(currentBits) && currentBits < maxBits {
            currentBits := currentBits + 1;
          }
        }
      }
      if on {
        Forward(data, d0, n0, prev, segments, tail, blockMode, k, i, b0, maxBits, o0, dict, nextCode, currentBits,
            bitPos, output);
        i := i + 1;
      }
      prev := Some(entry);
    }
  }

  ghost predicate SinglesIn(dict: seq<seq<Byte>>) {
    |dict| >= 256 && forall b :: 0 <= b < 256 ==> dict[b] == [b]
  }

  method Singles(blockMode: bool) returns (dict: seq<seq<Byte>>)
    ensures |dict| == (if blockMode then 257 else 256) && SinglesIn(dict)
    ensures blockMode ==> dict[256] == []
  {
    dict := [];
    var i: nat := 0;
    while i < 256
      invariant i <= 256 && |dict| == i && forall b :: 0 <= b < i ==> dict[b] == [b]
    {
      dict := dict + [[i]];
      i := i + 1;
    }
    if blockMode {
      dict := dict + [[]];
    }
  }

  /** The decoder has undone the segments before `k` and the first `i` codes of segment `k`. */
  ghost predicate Following(data: seq<Byte>, dict: seq<seq<Byte>>, nextCode: nat, prev: Option<seq<Byte>>,
                            segments: seq<Segment>, tail: seq<Bit>, blockMode: bool, k: nat, i: nat, bits: nat,
                            maxBits: nat, bitPos: nat, output: seq<Byte>)
  {
    && Encodes(data, segments, tail, blockMode, maxBits) && k < |segments|
    && SegmentOk(segments[k], FirstCode(blockMode), maxBits) && i <= |segments[k].codes|
    && DecoderOk(dict, nextCode, prev, segments[k].phrases, i, bits, FirstCode(blockMode), maxBits)
    && Ahead(data, bitPos, CodesFrom(segments[k].codes, i, FirstCode(blockMode), maxBits,
                                     Behind(segments, k, FirstCode(blockMode), maxBits, tail)))
    && output == Joined(segments[..k]) + Concat(segments[k].phrases[..i])
  }

  /** A segment is about to begin. */
  lemma Begin(data: seq<Byte>, dict: seq<seq<Byte>>, segments: seq<Segment>, tail: seq<Bit>, blockMode: bool, k: nat,
              maxBits: nat, bitPos: nat, output: seq<Byte>)
    requires Encodes(data, segments, tail, blockMode, maxBits) && k < |segments|
    requires |dict| == FirstCode(blockMode) && SinglesIn(dict) && output == Joined(segments[..k])
    requires Ahead(data, bitPos, SegmentsFrom(segments, k, FirstCode(blockMode), maxBits, tail))
    ensures Following(data, dict, FirstCode(blockMode), None, segments, tail, blockMode, k, 0, MIN_BITS, maxBits,
                      bitPos, output)
  {
    hide ByteBits, Phrases, CodesFrom, DecoderOk, Ahead, Joined;
    var g, first := segments[k], FirstCode(blockMode);
    assert SegmentOk(g, first, maxBits);
    assert Phrases(g.phrases, g.codes, first, maxBits);
    PhrasesLong(g, first, maxBits);
    NewDecoder(dict, g.phrases, first, maxBits);
    assert g.phrases[..0] == [] && Joined(segments[..k]) + [] == Joined(segments[..k]);
  }

  lemma DecoderStart(data: seq<Byte>, dict: seq<seq<Byte>>, segments: seq<Segment>, tail: seq<Bit>, blockMode: bool,
                     maxBits: nat)
    requires Encodes(data, segments, tail, blockMode, maxBits)
    requires |dict| == FirstCode(blockMode) && SinglesIn(dict)
    ensures Following(data, dict, FirstCode(blockMode), None, segments, tail, blockMode, 0, 0, MIN_BITS, maxBits, 0, [])
  {
    hide ByteBits, SegmentsFrom, Following;
    assert segments[..0] == [] && ByteBits(data)[0..] == ByteBits(data);
    Begin(data, dict, segments, tail, blockMode, 0, maxBits, 0, []);
  }

  lemma NewDecoder(dict: seq<seq<Byte>>, phrases: seq<seq<Byte>>, first: nat, maxBits: nat)
    requires MIN_BITS <= maxBits <= 16 && 256 <= first <= FIRST_CODE && |dict| == first && SinglesIn(dict)
    requires forall k :: 0 <= k < |phrases| ==> phrases[k] != []
    ensures DecoderOk(dict, first, None, phrases, 0, MIN_BITS, first, maxBits)
  {
    Pow2Eight();
    Pow2Monotone(9, maxBits);
  }

  lemma PhrasesLong(g: Segment, first: nat, maxBits: nat)
    requires Phrases(g.phrases, g.codes, first, maxBits)
    ensures |g.phrases| == |g.codes| && forall k :: 0 <= k < |g.phrases| ==> g.phrases[k] != []
  {
  }

  /** The next code of the segment is ahead, and the decoder knows its phrase. */
  lemma NextPhraseCode(data: seq<Byte>, dict: seq<seq<Byte>>, nextCode: nat, prev: Option<seq<Byte>>, g: Segment,
                       i: nat, bits: nat, first: nat, maxBits: nat, bitPos: nat, behind: seq<Bit>)
    requires MIN_BITS <= maxBits && SegmentOk(g, first, maxBits) && i < |g.codes| == |g.phrases| && prev != Some([])
    requires forall h :: 0 <= h < |g.phrases| ==> g.phrases[h] != []
    requires DecoderOk(dict, nextCode, prev, g.phrases, i, bits, first, maxBits) && bits == Width(i, first, maxBits)
    requires Ahead(data, bitPos, CodesFrom(g.codes, i, first, maxBits, behind))
    ensures bitPos + bits <= 8 * |data| && FromLsb(ByteBits(data)[bitPos..bitPos + bits]) == g.codes[i]
    ensures EntryFor(dict, g.codes[i], prev) == Some(g.phrases[i]) && (first == FIRST_CODE ==> g.codes[i] != CLEAR_CODE)
  {
    hide ByteBits, Pow2, FromLsb, LsbBits, Width, Ahead, DecoderOk, EntryFor;
    EntryIsPhrase(dict, nextCode, prev, g.phrases, g.codes, i, bits, first, maxBits);
    LsbRoundTrip(g.codes[i], bits);
    Advance(data, bitPos, LsbBits(g.codes[i], bits), bits, CodesFrom(g.codes, i + 1, first, maxBits, behind));
  }

  /** Behind the last code of a segment that is not the last a clear code is ahead. */
  lemma NextClear(data: seq<Byte>, segments: seq<Segment>, k: nat, i: nat, bits: nat, first: nat, maxBits: nat,
                  bitPos: nat, tail: seq<Bit>)
    requires MIN_BITS <= maxBits && k + 1 < |segments| && i == |segments[k].codes| && bits == Width(i, first, maxBits)
    requires Ahead(data, bitPos, Behind(segments, k, first, maxBits, tail))
    ensures bitPos + bits <= 8 * |data| && FromLsb(ByteBits(data)[bitPos..bitPos + bits]) == CLEAR_CODE
  {
    hide ByteBits, Pow2, FromLsb, LsbBits, Ahead;
    ClearFits(bits);
    LsbRoundTrip(CLEAR_CODE, bits);
    Advance(data, bitPos, LsbBits(CLEAR_CODE, bits), bits, SegmentsFrom(segments, k + 1, first, maxBits, tail));
  }

  /** Behind the last segment there is no code, or one the decoder stops at. */
  lemma NextStops(data: seq<Byte>, dict: seq<seq<Byte>>, nextCode: nat, prev: Option<seq<Byte>>,
                  phrases: seq<seq<Byte>>, i: nat, bits: nat, first: nat, maxBits: nat, bitPos: nat, tail: seq<Bit>)
    requires (forall h :: 0 <= h < |phrases| ==> phrases[h] != []) && i == |phrases| && prev != Some([])
    requires DecoderOk(dict, nextCode, prev, phrases, i, bits, first, maxBits) && bits == Width(i, first, maxBits)
    requires Ahead(data, bitPos, tail) && Stops(tail, i, first, maxBits)
    ensures bitPos + bits <= 8 * |data| ==>
              var code := FromLsb(ByteBits(data)[bitPos..bitPos + bits]);
              EntryFor(dict, code, prev) == None && (first == FIRST_CODE ==> code != CLEAR_CODE)
  {
    hide ByteBits, Pow2, FromLsb, Width, DecoderOk, EntryFor;
    if bitPos + bits <= 8 * |data| {
      assert |tail| == 8 * |data| - bitPos;
      assert ByteBits(data)[bitPos..][..bits] == ByteBits(data)[bitPos..bitPos + bits];
      NoEntry(dict, nextCode, prev, phrases, i, bits, first, maxBits, FromLsb(tail[..bits]));
    }
  }

  /** What the next call of `GetBits` finds: a code of the segment, or a clear code, or no code. */
  lemma NextCode(data: seq<Byte>, dict: seq<seq<Byte>>, nextCode: nat, prev: Option<seq<Byte>>, segments: seq<Segment>,
                 tail: seq<Bit>, blockMode: bool, k: nat, i: nat, bits: nat, maxBits: nat, bitPos: nat,
                 output: seq<Byte>)
    requires Following(data, dict, nextCode, prev, segments, tail, blockMode, k, i, bits, maxBits, bitPos, output)
    requires prev != Some([])
    ensures k < |segments| && i <= |segments[k].codes| == |segments[k].phrases|
    ensures MIN_BITS <= maxBits && bits == Width(i, FirstCode(blockMode), maxBits) && (blockMode || |segments| == 1)
    ensures i < |segments[k].codes| || k + 1 < |segments| ==>
              bitPos + bits <= 8 * |data| &&
              FromLsb(ByteBits(data)[bitPos..bitPos + bits]) == NextOf(segments, k, i)
    ensures i < |segments[k].codes| ==>
              && (blockMode ==> segments[k].codes[i] != CLEAR_CODE)
              && EntryFor(dict, segments[k].codes[i], prev) == Some(segments[k].phrases[i])
    ensures i == |segments[k].codes| && k + 1 == |segments| ==>
              && output == Joined(segments)
              && (bitPos + bits <= 8 * |data| ==>
                  var code := FromLsb(ByteBits(data)[bitPos..bitPos + bits]);
                  EntryFor(dict, code, prev) == None && !(blockMode && code == CLEAR_CODE))
  {
    hide ByteBits, Pow2, FromLsb, Concat, LsbBits, DecoderOk, Phrases, Joined, CodesFrom, Ahead, EntryFor, Stops, Width;
    var g, first := segments[k], FirstCode(blockMode);
    PhrasesLong(g, first, maxBits);
    DecoderWidth(dict, nextCode, prev, g.phrases, i, bits, first, maxBits);
    var behind := Behind(segments, k, first, maxBits, tail);
    if i < |g.codes| {
      NextPhraseCode(data, dict, nextCode, prev, g, i, bits, first, maxBits, bitPos, behind);
    } else {
      CodesEnd(g.codes, i, first, maxBits, behind);
      if k + 1 < |segments| {
        NextClear(data, segments, k, i, bits, first, maxBits, bitPos, tail);
      } else {
        assert g.phrases[..i] == g.phrases && segments[..k] == segments[..|segments| - 1];
        JoinedLast(segments);
        NextStops(data, dict, nextCode, prev, g.phrases, i, bits, first, maxBits, bitPos, tail);
      }
    }
  }

  lemma CodesEnd(codes: seq<nat>, i: nat, first: nat, maxBits: nat, rest: seq<Bit>)
    requires maxBits >= MIN_BITS && i == |codes|
    ensures CodesFrom(codes, i, first, maxBits, rest) == rest
  {
  }

  lemma JoinedLast(segments: seq<Segment>)
    requires segments != []
    ensures Joined(segments) == Joined(segments[..|segments| - 1]) + Concat(segments[|segments| - 1].phrases)
  {
  }

  lemma ClearFits(bits: nat)
    requires bits >= MIN_BITS
    ensures CLEAR_CODE < Pow2(bits)
  {
    Pow2Eight();
    Pow2Monotone(9, bits);
  }

  lemma DecoderWidth(dict: seq<seq<Byte>>, nextCode: nat, prev: Option<seq<Byte>>, phrases: seq<seq<Byte>>,
                     i: nat, bits: nat, first: nat, maxBits: nat)
    requires (forall k :: 0 <= k < |phrases| ==> phrases[k] != []) && i <= |phrases|
    requires DecoderOk(dict, nextCode, prev, phrases, i, bits, first, maxBits)
    ensures bits == Width(i, first, maxBits)
  {
    WidthFromIs(first + i, MIN_BITS, bits, maxBits);
  }

  /** The code that comes next: one of the segment, or the clear code behind it. */
  function NextOf(segments: seq<Segment>, k: nat, i: nat): nat
    requires k < |segments|
  {
    if i < |segments[k].codes| then segments[k].codes[i] else CLEAR_CODE
  }

  /** After a clear code everything is as at the start, and the next segment is ahead. */
  lemma Cleared(data: seq<Byte>, dict: seq<seq<Byte>>, dict': seq<seq<Byte>>, nextCode: nat, prev: Option<seq<Byte>>,
                segments: seq<Segment>, tail: seq<Bit>, k: nat, i: nat, bits: nat, maxBits: nat, bitPos: nat,
                output: seq<Byte>)
    requires Following(data, dict, nextCode, prev, segments, tail, true, k, i, bits, maxBits, bitPos, output)
    requires k + 1 < |segments| && i == |segments[k].codes| == |segments[k].phrases|
    requires bits == Width(i, FIRST_CODE, maxBits) && |dict'| == 257 && SinglesIn(dict')
    ensures Following(data, dict', FIRST_CODE, None, segments, tail, true, k + 1, 0, MIN_BITS, maxBits, bitPos + bits,
                      output)
  {
    hide ByteBits, Phrases, LsbBits, Joined, Ahead, Width, SegmentsFrom, CodesFrom, DecoderOk, Encodes;
    assert Encodes(data, segments, tail, true, maxBits) && MIN_BITS <= maxBits by {
      EncodesBits(data, segments, tail, maxBits);
    }
    CodesEnd(segments[k].codes, i, FIRST_CODE, maxBits, Behind(segments, k, FIRST_CODE, maxBits, tail));
    Advance(data, bitPos, LsbBits(CLEAR_CODE, bits), bits, SegmentsFrom(segments, k + 1, FIRST_CODE, maxBits, tail));
    assert segments[..k + 1][..k] == segments[..k] && segments[k].phrases[..i] == segments[k].phrases;
    JoinedLast(segments[..k + 1]);
    hide Following;
    Begin(data, dict', segments, tail, true, k + 1, maxBits, bitPos + bits, output);
  }

  lemma EncodesBits(data: seq<Byte>, segments: seq<Segment>, tail: seq<Bit>, maxBits: nat)
    requires Encodes(data, segments, tail, true, maxBits)
    ensures MIN_BITS <= maxBits
  {
  }

  lemma Forward(data: seq<Byte>, dict: seq<seq<Byte>>, nextCode: nat, prev: Option<seq<Byte>>, segments: seq<Segment>,
                tail: seq<Bit>, blockMode: bool, k: nat, i: nat, bits: nat, maxBits: nat, output: seq<Byte>,
                dict': seq<seq<Byte>>, nextCode': nat, bits': nat, bitPos: nat, output': seq<Byte>)
    requires bitPos >= bits
    requires Following(data, dict, nextCode, prev, segments, tail, blockMode, k, i, bits, maxBits, bitPos - bits,
        output)
    requires i < |segments[k].codes| && bits == Width(i, FirstCode(blockMode), maxBits)
    requires |segments[k].phrases| == |segments[k].codes| && output' == output + segments[k].phrases[i]
    requires segments[k].phrases[i] != [] && prev != Some([])
    requires if prev.Some? && nextCode < Pow2(maxBits)
             then Learns(dict, nextCode, prev.value
                 + [segments[k].phrases[i][0]], bits, maxBits, dict', nextCode', bits')
             else dict' == dict && nextCode' == nextCode && bits' == bits
    ensures Following(data, dict', nextCode', Some(segments[k].phrases[i]), segments, tail, blockMode, k, i + 1, bits',
                      maxBits, bitPos, output')
  {
    hide ByteBits, Pow2, DecoderOk, Learns, LsbBits, Phrases, Joined, Ahead, Width;
    var g, first := segments[k], FirstCode(blockMode);
    PhrasesLong(g, first, maxBits);
    DecoderStep(dict, nextCode, prev, g.phrases, i, bits, first, maxBits, dict', nextCode', bits');
    Advance(data, bitPos - bits, LsbBits(g.codes[i], bits), bits,
        CodesFrom(g.codes, i + 1, first, maxBits, Behind(segments, k, first, maxBits, tail)));
    assert g.phrases[..i + 1][..i] == g.phrases[..i];
    Assoc(Joined(segments[..k]), Concat(g.phrases[..i]), g.phrases[i]);
  }

  /** Decompressing what was compressed gives the data back, as long as the 16-bit code counter
      wraps with the last addition or not at all; in particular for any data of at most 65280 bytes. */
  method LzwRoundTrip(data: seq<Byte>, maxBits: nat) returns (back: seq<Byte>, added: nat)
    requires MIN_BITS <= maxBits <= 16
    ensures data != [] ==> added < |data|
    ensures InRange(maxBits, added) ==> back == data
    ensures maxBits < 16 || |data| <= 65280 ==> back == data
  {
    hide Phrases, CodeBits, Encodes;
    var output, n, phrases, codes, kept := LzwCompress(data, maxBits);
    added := n;
    ghost var tail: seq<Bit> := [];
    if data == [] {
      phrases, codes := [], [];
      Nothing(maxBits);
    } else if InRange(maxBits, n) {
      tail := CompressedEncodes(output, n, phrases, codes, maxBits);
    }
    back := LzwDecompress(output, maxBits, true, [Segment(phrases, codes)], tail);
    OneSegment(Segment(phrases, codes));
  }

  lemma OneSegment(g: Segment)
    ensures Joined([g]) == Concat(g.phrases)
  {
    assert [g][..0] == [] && Joined([]) == [];
  }

  lemma Nothing(maxBits: nat)
    requires MIN_BITS <= maxBits <= 16
    ensures Encodes([], [Segment([], [])], [], true, maxBits)
  {
    var segments := [Segment([], [])];
    assert CodesFrom([], 0, FIRST_CODE, maxBits, []) == [];
    assert SegmentOk(segments[0], FIRST_CODE, maxBits);
  }

  lemma CompressedEncodes(output: seq<Byte>, added: nat, phrases: seq<seq<Byte>>, codes: seq<nat>, maxBits: nat)
      returns (pad: seq<Bit>)
    requires MIN_BITS <= maxBits <= 16 && InRange(maxBits, added) && |phrases| == added + 1
    requires Phrases(phrases, codes, FIRST_CODE, maxBits)
    requires exists pad: seq<Bit> :: |pad| < 8 && ByteBits(output) == CodeBits(codes, FIRST_CODE, maxBits) + pad
    ensures Encodes(output, [Segment(phrases, codes)], pad, true, maxBits)
  {
    hide Phrases, LsbBits, ByteBits;
    pad :| |pad| < 8 && ByteBits(output) == CodeBits(codes, FIRST_CODE, maxBits) + pad;
    CodesMeet(codes, 0, FIRST_CODE, maxBits, pad);
    var segments := [Segment(phrases, codes)];
    assert CodeBits(codes[..0], FIRST_CODE, maxBits) == [];
    assert [] + CodesFrom(codes, 0, FIRST_CODE, maxBits, pad) == CodesFrom(codes, 0, FIRST_CODE, maxBits, pad);
    assert SegmentOk(segments[0], FIRST_CODE, maxBits);
    assert SegmentsFrom(segments, 0, FIRST_CODE, maxBits, pad) == CodesFrom(codes, 0, FIRST_CODE, maxBits, pad);
    assert Stops(pad, |codes|, FIRST_CODE, maxBits);
  }
}
