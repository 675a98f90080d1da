/** `po2ymo` of translate/po2ymo.py: the parsed entries are filtered, keyed
    and hashed into the `units` dict, which is then written out as a YMO
    image: a 16-bit count, one (hash, offset) record per unit, and the
    payloads in the same order. */
module Po2Ymo {
  import opened Bytes
  import opened Fnv
  import opened Results
  import opened PoParser
  import opened Seqs

  /** A value `fnv1a_32` can return. */
  type Hash = h: nat | h < TWO32

  /** One item of the `units` dict: the hash key and its payload bytes. */
  datatype Unit = Unit(hash: Hash, data: seq<Byte>)

  /** The largest count the 2-byte header can hold. */
  const MAX_UNITS: nat := 0xFFFF
  /** The largest offset a 2-byte record field can hold. */
  const MAX_OFFSET: nat := 0xFFFF

  // ---------------------------------------------------------------------
  // Entries to units.

  /** An entry is kept when both its `msgid` and `msgstr` are non-empty and
      it is not fuzzy, unless fuzzy entries are included. */
  predicate Kept(e: Entry, includeFuzzy: bool)
  {
    e.msgid != "" && e.msgstr != "" && (includeFuzzy || !e.fuzzy)
  }

  /** The `source` string of an entry: a non-empty context, the EOT character
      and the `msgid`; without a context (or with an empty one), the `msgid`. */
  function SourceKey(e: Entry): string
  {
    if e.msgctxt.Some? && e.msgctxt.value != [] then e.msgctxt.value + "\U{4}" + e.msgid else e.msgid
  }

  /** The key splits back into context, separator and `msgid`. */
  lemma SourceKeyShape(e: Entry)
    ensures e.msgctxt.None? || e.msgctxt.value == [] ==> SourceKey(e) == e.msgid
    ensures e.msgctxt.Some? && e.msgctxt.value != [] ==>
      |SourceKey(e)| == |e.msgctxt.value| + 1 + |e.msgid|
      && SourceKey(e)[..|e.msgctxt.value|] == e.msgctxt.value
      && SourceKey(e)[|e.msgctxt.value|] == '\U{4}'
      && SourceKey(e)[|e.msgctxt.value| + 1..] == e.msgid
  {
  }

  /** `fnv1a_32(source.encode("utf-16le"))`. */
  function KeyHash(key: string): Hash
  {
    Fnv1a32(Utf16Le(EncodeUtf16(key)))
  }

  /** `entry["msgstr"].encode("utf-16le") + bytes(2)`. */
  function Payload(msgstr: string): (d: seq<Byte>)
    ensures |d| == 2 * |EncodeUtf16(msgstr)| + 2
  {
    Utf16Le(EncodeUtf16(msgstr)) + [0, 0]
  }

  /** The unit an entry contributes when it is kept. */
  function UnitOf(e: Entry): Unit
  {
    Unit(KeyHash(SourceKey(e)), Payload(e.msgstr))
  }

  /** The position of hash `h` among the dict's keys. */
  function IndexOf(units: seq<Unit>, h: nat): (r: Option<nat>)
    ensures r.None? ==> forall i :: 0 <= i < |units| ==> units[i].hash != h
    ensures r.Some? ==> r.value < |units| && units[r.value].hash == h
    ensures r.Some? ==> forall i :: 0 <= i < r.value ==> units[i].hash != h
  {
    if units == [] then None
    else if units[0].hash == h then Some(0)
    else match IndexOf(units[1..], h)
      case None => None
      case Some(i) => Some(i + 1)
  }

  /** No two keys of the dict are equal. */
  predicate DistinctHashes(units: seq<Unit>)
  {
    forall i, j :: 0 <= i < j < |units| ==> units[i].hash != units[j].hash
  }

  /** `units[hash] = data`: a present key keeps its position and takes the
      new value; a new key goes at the end. */
  function Put(units: seq<Unit>, u: Unit): (r: seq<Unit>)
    ensures IndexOf(units, u.hash).Some? ==> r == units[IndexOf(units, u.hash).value := u]
    ensures IndexOf(units, u.hash).None? ==> r == units + [u]
  {
    if units == [] then [u]
    else if units[0].hash == u.hash then [u] + units[1..]
    else [units[0]] + Put(units[1..], u)
  }

  /** Storing into the dict never creates a duplicate key. */
  lemma PutKeepsDistinct(units: seq<Unit>, u: Unit)
    requires DistinctHashes(units)
    ensures DistinctHashes(Put(units, u))
  {
  }

  /** The `units` dict after the loop over `entries`. */
  function UnitsOf(entries: seq<Entry>, includeFuzzy: bool): seq<Unit>
  {
    if entries == [] then []
    else
      var units := UnitsOf(entries[..|entries| - 1], includeFuzzy);
      var e := entries[|entries| - 1];
      if Kept(e, includeFuzzy) then Put(units, UnitOf(e)) else units
  }

  /** Entry `e` is kept and hashes to `h`. */
  predicate Produces(e: Entry, includeFuzzy: bool, h: nat)
  {
    Kept(e, includeFuzzy) && KeyHash(SourceKey(e)) == h
  }

  /** The last kept entry that hashes to `h`: the one whose payload a
      Python dict assignment leaves in place. */
  function LastProducer(entries: seq<Entry>, includeFuzzy: bool, h: nat): (r: Option<nat>)
    ensures r.Some? ==> r.value < |entries|
  {
    if entries == [] then None
    else if Produces(entries[|entries| - 1], includeFuzzy, h) then Some(|entries| - 1)
    else LastProducer(entries[..|entries| - 1], includeFuzzy, h)
  }

  /** `LastProducer` finds a producing entry with none after it, and `None`
      means no entry produces the hash. */
  lemma {:induction false} LastProducerSpec(entries: seq<Entry>, includeFuzzy: bool, h: nat)
    ensures LastProducer(entries, includeFuzzy, h).None? ==>
      forall j :: 0 <= j < |entries| ==> !Produces(entries[j], includeFuzzy, h)
    ensures LastProducer(entries, includeFuzzy, h).Some? ==>
      Produces(entries[LastProducer(entries, includeFuzzy, h).value], includeFuzzy, h)
      && forall j :: LastProducer(entries, includeFuzzy, h).value < j < |entries| ==> !Produces(entries[j], includeFuzzy, h)
  {
    if entries != [] && !Produces(entries[|entries| - 1], includeFuzzy, h) {
      var init := entries[..|entries| - 1];
      LastProducerSpec(init, includeFuzzy, h);
      var r := LastProducer(init, includeFuzzy, h);
      assert LastProducer(entries, includeFuzzy, h) == r;
      forall j | 0 <= j < |entries| && (r.None? || r.value <= j)
        ensures r.Some? && j == r.value ==> Produces(entries[j], includeFuzzy, h)
        ensures (r.None? || j > r.value) ==> !Produces(entries[j], includeFuzzy, h)
      {
        if j < |init| {
          assert entries[j] == init[j];
        }
      }
    }
  }

  /** The dict's keys are distinct, a hash is a key exactly when some kept
      entry produces it, and its payload is that of the last such entry
      (a later entry with the same hash replaces the earlier payload). */
  lemma {:induction false} UnitsOfSpec(entries: seq<Entry>, includeFuzzy: bool, h: nat)
    ensures DistinctHashes(UnitsOf(entries, includeFuzzy))
    ensures IndexOf(UnitsOf(entries, includeFuzzy), h).Some? <==> LastProducer(entries, includeFuzzy, h).Some?
    ensures IndexOf(UnitsOf(entries, includeFuzzy), h).Some? ==>
      UnitsOf(entries, includeFuzzy)[IndexOf(UnitsOf(entries, includeFuzzy), h).value]
        == UnitOf(entries[LastProducer(entries, includeFuzzy, h).value])
  {
    if entries != [] {
      var init := entries[..|entries| - 1];
      var e := entries[|entries| - 1];
      UnitsOfSpec(init, includeFuzzy, h);
      var units := UnitsOf(init, includeFuzzy);
      if Kept(e, includeFuzzy) {
        PutKeepsDistinct(units, UnitOf(e));
        var r := Put(units, UnitOf(e));
        if UnitOf(e).hash != h {
          UnitsIndexAfterPut(units, UnitOf(e), h);
        } else {
          match IndexOf(units, h)
          case None => IndexOfFirst(r, h, |units|);
          case Some(k) => IndexOfFirst(r, h, k);
        }
      }
      match LastProducer(init, includeFuzzy, h)
      case None =>
      case Some(j) => assert init[j] == entries[j];
    }
  }

  /** Storing under another key leaves the position and value of `h`. */
  lemma UnitsIndexAfterPut(units: seq<Unit>, u: Unit, h: nat)
    requires u.hash != h
    ensures IndexOf(Put(units, u), h) == IndexOf(units, h)
    ensures IndexOf(units, h).Some? ==> Put(units, u)[IndexOf(units, h).value] == units[IndexOf(units, h).value]
  {
    var r := Put(units, u);
    match IndexOf(units, h)
    case None =>
      assert forall i :: 0 <= i < |r| ==> r[i].hash != h by {
        forall i | 0 <= i < |r| ensures r[i].hash != h {
          if i < |units| { assert r[i].hash == u.hash || r[i] == units[i]; }
        }
      }
      IndexOfAbsent(r, h);
    case Some(k) =>
      assert r[k] == units[k];
      IndexOfFirst(r, h, k);
  }

  /** `IndexOf` is `None` exactly when the key is absent. */
  lemma IndexOfAbsent(units: seq<Unit>, h: nat)
    requires forall i :: 0 <= i < |units| ==> units[i].hash != h
    ensures IndexOf(units, h).None?
  {
  }

  /** `IndexOf` finds the first position holding the key. */
  lemma IndexOfFirst(units: seq<Unit>, h: nat, k: nat)
    requires k < |units| && units[k].hash == h
    requires forall i :: 0 <= i < k ==> units[i].hash != h
    ensures IndexOf(units, h) == Some(k)
  {
  }

  /** The loop of `po2ymo` that fills `units`. */
  method BuildUnits(entries: seq<Entry>, includeFuzzy: bool) returns (units: seq<Unit>)
    ensures units == UnitsOf(entries, includeFuzzy)
  {
    units := [];
    for i := 0 to |entries|
      invariant units == UnitsOf(entries[..i], includeFuzzy)
    {
      assert entries[..i + 1][..i] == entries[..i];
      var entry := entries[i];
      if entry.msgid == "" || entry.msgstr == "" {
        continue;
      }
      if entry.fuzzy && !includeFuzzy {
        continue;
      }
      var source := entry.msgid;
      if entry.msgctxt.Some? && entry.msgctxt.value != "" {
        source := entry.msgctxt.value + "\U{4}" + source;
      }
      var hashValue := ComputeFnv1a32(Utf16Le(EncodeUtf16(source)));
      units := Put(units, Unit(hashValue, Utf16Le(EncodeUtf16(entry.msgstr)) + [0, 0]));
    }
    assert entries[..|entries|] == entries;
  }

  // ---------------------------------------------------------------------
  // Layout.

  /** Where the payloads start: `2 + len(units) * (4 + 2)`. */
  function TableStart(n: nat): nat
  {
    2 + 6 * n
  }

  /** The total length of the payloads. */
  function DataLen(units: seq<Unit>): nat
  {
    if units == [] then 0 else DataLen(units[..|units| - 1]) + |units[|units| - 1].data|
  }

  /** The payloads, concatenated in dict order. */
  function Payloads(units: seq<Unit>): (r: seq<Byte>)
    ensures |r| == DataLen(units)
  {
    if units == [] then [] else Payloads(units[..|units| - 1]) + units[|units| - 1].data
  }

  /** Every record's starting offset, `base` plus the payloads before it,
      fits in the 16-bit field. */
  predicate OffsetsFit(units: seq<Unit>, base: nat)
  {
    units == [] || (OffsetsFit(units[..|units| - 1], base) && base + DataLen(units[..|units| - 1]) <= MAX_OFFSET)
  }

  /** The record table: per unit, its hash and the running offset of its
      payload, both little-endian. */
  function Records(units: seq<Unit>, base: nat): (r: seq<Byte>)
    requires OffsetsFit(units, base)
    ensures |r| == 6 * |units|
  {
    if units == [] then []
    else
      var init := units[..|units| - 1];
      Records(init, base) + U32Le(units[|units| - 1].hash) + U16Le(base + DataLen(init))
  }

  /** The file `po2ymo` writes when no error is raised. */
  function Image(units: seq<Unit>): seq<Byte>
    requires |units| <= MAX_UNITS && OffsetsFit(units, TableStart(|units|))
  {
    U16Le(|units|) + Records(units, TableStart(|units|)) + Payloads(units)
  }

  /** How many records get written before the first offset that is too
      large. */
  function FitCount(units: seq<Unit>, base: nat): (k: nat)
    ensures k <= |units| && OffsetsFit(units[..k], base)
    ensures k == |units| <==> OffsetsFit(units, base)
    ensures k < |units| ==> base + DataLen(units[..k]) > MAX_OFFSET
  {
    if OffsetsFit(units, base) then
      assert units[..|units|] == units;
      |units|
    else
      var init := units[..|units| - 1];
      var k := FitCount(init, base);
      assert init[..k] == units[..k];
      k
  }

  datatype WriteError = TooManyEntries | DataTooLarge

  /** What ends up in `outfile`, and the `ValueError` raised, if any. */
  datatype Output = Output(bytes: seq<Byte>, error: Option<WriteError>)

  /** The output of the writing half of `po2ymo` for `units`: nothing for too
      many units; the header and the records before the first oversized
      offset when the data is too large; otherwise the whole image. */
  function Written(units: seq<Unit>): Output
  {
    if |units| > MAX_UNITS then Output([], Some(TooManyEntries))
    else if OffsetsFit(units, TableStart(|units|)) then Output(Image(units), None)
    else
      var base := TableStart(|units|);
      Output(U16Le(|units|) + Records(units[..FitCount(units, base)], base), Some(DataTooLarge))
  }

  /** A record's offset fits exactly when the offsets before it do and its
      own does. */
  lemma OffsetsFitPrefix(units: seq<Unit>, base: nat, k: nat)
    requires k < |units|
    ensures OffsetsFit(units[..k + 1], base) <==> OffsetsFit(units[..k], base) && base + DataLen(units[..k]) <= MAX_OFFSET
  {
    assert units[..k + 1][..k] == units[..k];
  }

  /** Offsets that fit for a prefix fit for each shorter prefix, and each
      record offset before its end fits. */
  lemma {:induction false} OffsetsFitShorter(units: seq<Unit>, base: nat, j: nat, k: nat)
    ensures j <= k <= |units| && OffsetsFit(units[..k], base) ==>
      OffsetsFit(units[..j], base) && (j < k ==> base + DataLen(units[..j]) <= MAX_OFFSET)
    decreases k
  {
    if j < k <= |units| && OffsetsFit(units[..k], base) {
      OffsetsFitPrefix(units, base, k - 1);
      OffsetsFitShorter(units, base, j, k - 1);
    }
  }

  /** The write loop, record by record and then payload by payload. */
  method WriteYmo(units: seq<Unit>) returns (out: seq<Byte>, error: Option<WriteError>)
    ensures Output(out, error) == Written(units)
  {
    if |units| > MAX_UNITS {
      return [], Some(TooManyEntries);
    }
    var ok;
    out, ok := WriteRecords(units, TableStart(|units|), U16Le(|units|));
    if !ok {
      return out, Some(DataTooLarge);
    }
    out := WritePayloads(units, out);
    error := None;
  }

  /** The record loop: append each record after `written`, stopping at the
      first offset that does not fit in 16 bits (`ok` false). */
  method WriteRecords(units: seq<Unit>, base: nat, written: seq<Byte>) returns (out: seq<Byte>, ok: bool)
    ensures ok <==> OffsetsFit(units, base)
    ensures ok ==> out == written + Records(units, base)
    ensures !ok ==> out == written + Records(units[..FitCount(units, base)], base)
  {
    out := written;
    var offset := base;
    for i := 0 to |units|
      invariant OffsetsFit(units[..i], base)
      invariant offset == base + DataLen(units[..i])
      invariant out == written + Records(units[..i], base)
    {
      if offset > MAX_OFFSET {
        WriteStopsAt(units, base, i);
        return out, false;
      }
      RecordsSnoc(units, base, i);
      out := out + U32Le(units[i].hash) + U16Le(offset);
      offset := offset + |units[i].data|;
    }
    assert units[..|units|] == units;
    ok := true;
  }

  /** The payload loop: append each unit's data after `written`. */
  method WritePayloads(units: seq<Unit>, written: seq<Byte>) returns (out: seq<Byte>)
    ensures out == written + Payloads(units)
  {
    out := written;
    for i := 0 to |units|
      invariant out == written + Payloads(units[..i])
    {
      PayloadsSnoc(units, i);
      out := out + units[i].data;
    }
    assert units[..|units|] == units;
  }

  /** Writing record `i` extends the table by that record. */
  lemma RecordsSnoc(units: seq<Unit>, base: nat, i: nat)
    requires i < |units| && OffsetsFit(units[..i], base) && base + DataLen(units[..i]) <= MAX_OFFSET
    ensures OffsetsFit(units[..i + 1], base)
    ensures DataLen(units[..i + 1]) == DataLen(units[..i]) + |units[i].data|
    ensures Records(units[..i + 1], base) == Records(units[..i], base) + U32Le(units[i].hash) + U16Le(base + DataLen(units[..i]))
  {
    OffsetsFitPrefix(units, base, i);
    assert units[..i + 1][..i] == units[..i];
  }

  /** Writing payload `i` extends the payloads by it. */
  lemma PayloadsSnoc(units: seq<Unit>, i: nat)
    requires i < |units|
    ensures Payloads(units[..i + 1]) == Payloads(units[..i]) + units[i].data
  {
    assert units[..i + 1][..i] == units[..i];
  }

  /** The first oversized offset is where writing stops. */
  lemma WriteStopsAt(units: seq<Unit>, base: nat, i: nat)
    requires i < |units| && OffsetsFit(units[..i], base) && base + DataLen(units[..i]) > MAX_OFFSET
    ensures !OffsetsFit(units, base) && FitCount(units, base) == i
  {
    var k := FitCount(units, base);
    OffsetsFitPrefix(units, base, i);
    OffsetsFitShorter(units, base, i + 1, |units|);
    OffsetsFitShorter(units, base, i + 1, k);
    OffsetsFitShorter(units, base, k, i);
    assert units[..|units|] == units;
  }

  // ---------------------------------------------------------------------
  // The layout of a written image.

  /** The offset written into record `i`: the payload start plus the
      payloads before it. */
  function StartOffset(units: seq<Unit>, i: nat): nat
    requires i <= |units|
  {
    TableStart(|units|) + DataLen(units[..i])
  }

  /** The first offset is the end of the record table, and each next one
      advances by the previous payload's length. */
  lemma StartOffsetStep(units: seq<Unit>, i: nat)
    requires i < |units|
    ensures StartOffset(units, 0) == TableStart(|units|)
    ensures StartOffset(units, i + 1) == StartOffset(units, i) + |units[i].data|
  {
    assert units[..0] == [];
    assert units[..i + 1][..i] == units[..i];
  }

  /** The payloads before `i` and the one at `i` fit in the total. */
  lemma {:induction false} DataLenPrefix(units: seq<Unit>, i: nat)
    requires i < |units|
    ensures DataLen(units[..i]) + |units[i].data| <= DataLen(units)
    ensures Payloads(units)[DataLen(units[..i])..DataLen(units[..i]) + |units[i].data|] == units[i].data
    decreases |units|
  {
    var init := units[..|units| - 1];
    if i == |units| - 1 {
      assert units[..i] == init;
    } else {
      DataLenPrefix(init, i);
      assert init[..i] == units[..i] && init[i] == units[i];
      assert Payloads(units) == Payloads(init) + units[|units| - 1].data;
    }
  }

  /** Record `i` of the table reads back as the unit's hash and its offset. */
  lemma {:induction false} RecordsAt(units: seq<Unit>, base: nat, i: nat)
    requires OffsetsFit(units, base) && i < |units|
    ensures base + DataLen(units[..i]) <= MAX_OFFSET
    ensures ReadU32(Records(units, base), 6 * i) == units[i].hash
    ensures ReadU16(Records(units, base), 6 * i + 4) == base + DataLen(units[..i])
    decreases |units|
  {
    var init := units[..|units| - 1];
    var front := Records(init, base);
    var hash := U32Le(units[|units| - 1].hash);
    var offset := U16Le(base + DataLen(init));
    assert Records(units, base) == front + hash + offset;
    if i == |units| - 1 {
      assert units[..i] == init;
      LastRecord(front, units[i].hash, base + DataLen(init));
    } else {
      RecordsAt(init, base, i);
      assert init[..i] == units[..i] && init[i] == units[i];
      ReadU32Left(front, hash, 6 * i);
      ReadU32Left(front + hash, offset, 6 * i);
      ReadU16Left(front, hash, 6 * i + 4);
      ReadU16Left(front + hash, offset, 6 * i + 4);
    }
  }

  /** A record appended after `front` reads back as its hash and offset. */
  lemma LastRecord(front: seq<Byte>, hash: Hash, offset: nat)
    requires offset <= MAX_OFFSET
    ensures ReadU32(front + U32Le(hash) + U16Le(offset), |front|) == hash
    ensures ReadU16(front + U32Le(hash) + U16Le(offset), |front| + 4) == offset
  {
    var h := U32Le(hash);
    var o := U16Le(offset);
    ReadU32OfU32Le(h, 0, hash);
    ReadU16OfU16Le(o, 0, offset);
    ReadU32Right(front, h, |front|);
    ReadU32Left(front + h, o, |front|);
    ReadU16Right(front + h, o, |front| + 4);
  }

  /** The image starts with the count and is `2 + 6n` bytes plus all
      payloads long. */
  lemma ImageHeader(units: seq<Unit>)
    requires |units| <= MAX_UNITS && OffsetsFit(units, TableStart(|units|))
    ensures |Image(units)| == TableStart(|units|) + DataLen(units)
    ensures ReadU16(Image(units), 0) == |units|
  {
    var head := U16Le(|units|);
    var rest := Records(units, TableStart(|units|)) + Payloads(units);
    assert Image(units) == head + rest;
    ReadU16OfU16Le(head, 0, |units|);
    ReadU16Left(head, rest, 0);
  }

  /** Record `i` sits at `2 + 6i` and reads back as the unit's hash and
      offset. */
  lemma ImageRecord(units: seq<Unit>, i: nat)
    requires |units| <= MAX_UNITS && OffsetsFit(units, TableStart(|units|)) && i < |units|
    ensures StartOffset(units, i) <= MAX_OFFSET
    ensures 2 + 6 * i + 6 <= |Image(units)|
    ensures ReadU32(Image(units), 2 + 6 * i) == units[i].hash
    ensures ReadU16(Image(units), 2 + 6 * i + 4) == StartOffset(units, i)
  {
    var head := U16Le(|units|);
    var recs := Records(units, TableStart(|units|));
    var payloads := Payloads(units);
    assert Image(units) == head + recs + payloads;
    RecordsAt(units, TableStart(|units|), i);
    ReadU32Right(head, recs, 2 + 6 * i);
    ReadU32Left(head + recs, payloads, 2 + 6 * i);
    ReadU16Right(head, recs, 2 + 6 * i + 4);
    ReadU16Left(head + recs, payloads, 2 + 6 * i + 4);
  }

  /** Unit `i`'s payload lies at the offset its record holds. */
  lemma ImagePayloadLayout(units: seq<Unit>, i: nat)
    requires |units| <= MAX_UNITS && OffsetsFit(units, TableStart(|units|)) && i < |units|
    ensures StartOffset(units, i) + |units[i].data| <= |Image(units)|
    ensures Image(units)[StartOffset(units, i)..StartOffset(units, i) + |units[i].data|] == units[i].data
  {
    var head := U16Le(|units|) + Records(units, TableStart(|units|));
    assert Image(units) == head + Payloads(units);
    assert StartOffset(units, i) == |head| + DataLen(units[..i]);
    DataLenPrefix(units, i);
    SliceAfter(Image(units), head, Payloads(units), DataLen(units[..i]), units[i].data);
  }

  // ---------------------------------------------------------------------
  // The whole conversion.

  /** `po2ymo` once the PO file has been read into `lines`: `None` when
      `literal_eval` rejects a quoted string, otherwise the bytes written
      and the error raised, if any. */
  function Converted(lines: seq<string>, unquote: Unquote, includeFuzzy: bool): (r: Option<Output>)
    ensures r.None? <==> ParseLines(lines, unquote).None?
  {
    match ParseLines(lines, unquote)
    case None => None
    case Some(entries) => Some(Written(UnitsOf(entries, includeFuzzy)))
  }

  /** `po2ymo`: parse, fill `units`, write. */
  method Convert(lines: seq<string>, unquote: Unquote, includeFuzzy: bool) returns (result: Option<Output>)
    ensures result == Converted(lines, unquote, includeFuzzy)
  {
    var entries := ParsePo(lines, unquote);
    if entries.None? {
      return None;
    }
    var units := BuildUnits(entries.value, includeFuzzy);
    var out, error := WriteYmo(units);
    return Some(Output(out, error));
  }
}
