/** The two sides of the YMO format together: an image written by `po2ymo`
    (translate/po2ymo.py) is accepted record by record by `LoadTranslateData`
    (I18n.hpp), and looking a source string up in the loaded table finds the
    `msgstr` of the last kept PO entry with that key. */
module RoundTrip {
  import opened Bytes
  import opened Fnv
  import opened Results
  import opened PoParser
  import opened Po2Ymo
  import opened I18n

  // ---------------------------------------------------------------------
  // Payload shape.

  /** What every payload looks like: whole code units, ending in a zero
      code unit. */
  predicate PayloadShaped(d: seq<Byte>)
  {
    |d| % 2 == 0 && |d| >= 2 && d[|d| - 2] == 0 && d[|d| - 1] == 0
  }

  predicate AllShaped(units: seq<Unit>)
  {
    forall i :: 0 <= i < |units| ==> PayloadShaped(units[i].data)
  }

  /** A payload is the code units of `msgstr` followed by a zero unit. */
  lemma PayloadUnits(msgstr: string)
    ensures Payload(msgstr) == Utf16Le(EncodeUtf16(msgstr) + [0])
    ensures PayloadShaped(Payload(msgstr))
  {
    var u := EncodeUtf16(msgstr);
    Utf16LeAppend(u, [0]);
    assert Utf16Le([0]) == U16Le(0) + Utf16Le([]);
  }

  /** Every payload in the dict has that shape. */
  lemma {:induction false} UnitsOfShaped(entries: seq<Entry>, includeFuzzy: bool)
    ensures AllShaped(UnitsOf(entries, includeFuzzy))
  {
    if entries != [] {
      var init := entries[..|entries| - 1];
      var e := entries[|entries| - 1];
      UnitsOfShaped(init, includeFuzzy);
      if Kept(e, includeFuzzy) {
        PayloadUnits(e.msgstr);
        var units := UnitsOf(init, includeFuzzy);
        var r := Put(units, UnitOf(e));
        forall i | 0 <= i < |r| ensures PayloadShaped(r[i].data) {
          if i < |units| && r[i] != UnitOf(e) {
            assert r[i] == units[i];
          }
        }
      }
    }
  }

  /** Payloads of whole code units add up to an even length. */
  lemma {:induction false} DataLenEven(units: seq<Unit>)
    requires AllShaped(units)
    ensures DataLen(units) % 2 == 0
    decreases |units|
  {
    if units != [] {
      var init := units[..|units| - 1];
      assert forall i :: 0 <= i < |init| ==> init[i] == units[i];
      DataLenEven(init);
    }
  }

  /** Every offset written is even. */
  lemma StartOffsetEven(units: seq<Unit>, i: nat)
    requires AllShaped(units) && i <= |units|
    ensures StartOffset(units, i) % 2 == 0
  {
    var front := units[..i];
    assert forall j :: 0 <= j < |front| ==> front[j] == units[j];
    DataLenEven(front);
  }

  // ---------------------------------------------------------------------
  // Every record of a written image passes the loader's checks.

  /** The loader reads the header back and finds the count written. */
  lemma ImageHeaderFits(units: seq<Unit>)
    requires |units| <= MAX_UNITS && OffsetsFit(units, TableStart(|units|))
    ensures HeaderFits(Image(units)) && RecordCount(Image(units)) == |units|
  {
    ImageHeader(units);
  }

  /** Record `i` reads back as the unit's hash and offset, and the offset
      passes the checks of I18n.hpp:65-81. */
  lemma ImageRecordAccepted(units: seq<Unit>, i: nat)
    requires |units| <= MAX_UNITS && OffsetsFit(units, TableStart(|units|))
    requires AllShaped(units) && i < |units|
    ensures HeaderFits(Image(units)) && RecordCount(Image(units)) == |units|
    ensures RecordHash(Image(units), i) == units[i].hash
    ensures RecordOffset(Image(units), i) == StartOffset(units, i)
    ensures RecordAccepted(Image(units), i)
  {
    ImageHeaderFits(units);
    ImageRecord(units, i);
    PayloadOffsetAccepted(units, i);
    RecordRead(Image(units), i, units[i].hash, StartOffset(units, i));
  }

  /** The loader's view of a record whose bytes are known: its hash and
      offset are the values read at `2 + 6i`, and it is accepted when that
      offset is. */
  lemma RecordRead(buf: seq<Byte>, i: nat, hash: nat, off: nat)
    requires HeaderFits(buf) && i < RecordCount(buf)
    requires ReadU32(buf, 2 + 6 * i) == hash && ReadU16(buf, 2 + 6 * i + 4) == off
    requires OffsetAccepted(buf, off)
    ensures RecordHash(buf, i) == hash && RecordOffset(buf, i) == off
    ensures RecordAccepted(buf, i)
  {
  }

  /** The offset of unit `i` is accepted: its payload lies inside the image,
      is aligned, and ends in a zero code unit. */
  lemma PayloadOffsetAccepted(units: seq<Unit>, i: nat)
    requires |units| <= MAX_UNITS && OffsetsFit(units, TableStart(|units|))
    requires AllShaped(units) && i < |units|
    ensures OffsetAccepted(Image(units), StartOffset(units, i))
  {
    ImagePayloadLayout(units, i);
    StartOffsetEven(units, i);
    ShapedPayloadAccepted(Image(units), StartOffset(units, i), units[i].data);
  }

  /** An even offset at which a shaped payload lies is accepted: the
      payload's last code unit is a zero one inside the buffer. */
  lemma ShapedPayloadAccepted(buf: seq<Byte>, off: nat, d: seq<Byte>)
    requires off + |d| <= |buf| && buf[off..off + |d|] == d
    requires off % 2 == 0 && PayloadShaped(d)
    ensures OffsetAccepted(buf, off)
  {
    var k := |d| / 2 - 1;
    assert buf[off..off + |d|][2 * k] == buf[off + 2 * k];
    assert buf[off..off + |d|][2 * k + 1] == buf[off + 2 * k + 1];
    assert UnitAt(buf, off, k) == 0;
  }

  /** All records at once. */
  lemma ImageRecordsAccepted(units: seq<Unit>)
    requires |units| <= MAX_UNITS && OffsetsFit(units, TableStart(|units|))
    requires AllShaped(units)
    ensures HeaderFits(Image(units)) && RecordCount(Image(units)) == |units|
    ensures forall i :: 0 <= i < |units| ==>
      RecordHash(Image(units), i) == units[i].hash
      && RecordOffset(Image(units), i) == StartOffset(units, i)
      && RecordAccepted(Image(units), i)
  {
    ImageHeaderFits(units);
    forall i | 0 <= i < |units|
      ensures RecordHash(Image(units), i) == units[i].hash
      ensures RecordOffset(Image(units), i) == StartOffset(units, i)
      ensures RecordAccepted(Image(units), i)
    {
      ImageRecordAccepted(units, i);
    }
  }

  /** Loading a written image gives a table with exactly the dict's keys,
      each pointing at the offset written for it. */
  lemma DecodeImage(units: seq<Unit>, h: nat)
    requires |units| <= MAX_UNITS && OffsetsFit(units, TableStart(|units|))
    requires AllShaped(units)
    ensures HeaderFits(Image(units))
    ensures h in DecodeTable(Image(units)) <==> IndexOf(units, h).Some?
    ensures IndexOf(units, h).Some? ==>
      DecodeTable(Image(units))[h] == StartOffset(units, IndexOf(units, h).value)
  {
    var img := Image(units);
    ImageRecordsAccepted(units);
    TableAfterKeys(img, |units|, h);
    match IndexOf(units, h)
    case None =>
    case Some(j) =>
      FirstAcceptedWins(img, |units|, j);
  }

  // ---------------------------------------------------------------------
  // The string the loader sees at a payload.

  /** Reading wide characters over the little-endian bytes of `u` gives `u`
      up to its first zero unit. */
  lemma {:induction false} TextAtUnits(buf: seq<Byte>, off: nat, u: seq<CodeUnit>)
    requires off + 2 * |u| <= |buf| && buf[off..off + 2 * |u|] == Utf16Le(u)
    requires 0 in u
    ensures TextAt(buf, off) == TakeUntilNul(u)
    decreases |u|
  {
    var b := Utf16Le(u);
    assert b == U16Le(u[0]) + Utf16Le(u[1..]);
    assert buf[off] == b[0] && buf[off + 1] == b[1];
    ReadU16OfU16Le(b, 0, u[0]);
    assert ReadU16(buf, off) == u[0];
    if u[0] != 0 {
      assert 0 in u[1..];
      assert buf[off + 2..off + 2 + 2 * |u[1..]|] == b[2..];
      TextAtUnits(buf, off + 2, u[1..]);
    }
  }

  /** A trailing zero unit does not change where the string ends. */
  lemma {:induction false} TakeUntilNulPadded(v: seq<CodeUnit>)
    ensures TakeUntilNul(v + [0]) == TakeUntilNul(v)
  {
    if v != [] && v[0] != 0 {
      assert (v + [0])[1..] == v[1..] + [0];
      TakeUntilNulPadded(v[1..]);
    }
  }

  /** The loader's string at unit `i` is its `msgstr` up to the first NUL. */
  lemma ImageText(units: seq<Unit>, i: nat, msgstr: string)
    requires |units| <= MAX_UNITS && OffsetsFit(units, TableStart(|units|))
    requires i < |units| && units[i].data == Payload(msgstr)
    ensures StartOffset(units, i) <= |Image(units)|
    ensures TextAt(Image(units), StartOffset(units, i)) == TakeUntilNul(EncodeUtf16(msgstr))
  {
    var v := EncodeUtf16(msgstr);
    PayloadUnits(msgstr);
    ImagePayloadLayout(units, i);
    TextAtUnits(Image(units), StartOffset(units, i), v + [0]);
    TakeUntilNulPadded(v);
  }

  // ---------------------------------------------------------------------
  // End to end.

  /** The reader hashes a key the way the writer does. */
  lemma SameHash(key: string)
    ensures TextHash(EncodeUtf16(key)) == KeyHash(key)
  {
  }

  /** The key `C_` builds from a context and a `msgid` literal is the key
      `po2ymo` hashes for an entry with that (non-empty) context. */
  lemma ContextKeyAgrees(e: Entry)
    requires e.msgctxt.Some? && e.msgctxt.value != []
    ensures EncodeUtf16(SourceKey(e)) == ContextKey(EncodeUtf16(e.msgctxt.value), EncodeUtf16(e.msgid))
  {
    var c := e.msgctxt.value;
    EncodeUtf16Append(c + "\U{4}", e.msgid);
    EncodeUtf16Append(c, "\U{4}");
    assert EncodeUtf16("\U{4}") == [4];
  }

  /** After loading what `po2ymo` wrote for `entries`, translating a string
      whose key is `key` finds the `msgstr` of the last kept entry with that
      key's hash, up to its first NUL; when no kept entry has it, the string
      comes back unchanged. */
  lemma {:induction false} EndToEnd(entries: seq<Entry>, includeFuzzy: bool, str: Ptr, key: string)
    requires Written(UnitsOf(entries, includeFuzzy)).error.None?
    ensures HeaderFits(Written(UnitsOf(entries, includeFuzzy)).bytes)
    ensures LastProducer(entries, includeFuzzy, KeyHash(key)).None? ==>
      Resolve(DecodeTable(Written(UnitsOf(entries, includeFuzzy)).bytes), str, EncodeUtf16(key)) == str
    ensures LastProducer(entries, includeFuzzy, KeyHash(key)).Some? ==>
      var img := Written(UnitsOf(entries, includeFuzzy)).bytes;
      var r := Resolve(DecodeTable(img), str, EncodeUtf16(key));
      && r.Resource? && r.offset <= |img|
      && TextAt(img, r.offset)
        == TakeUntilNul(EncodeUtf16(entries[LastProducer(entries, includeFuzzy, KeyHash(key)).value].msgstr))
  {
    var units := UnitsOf(entries, includeFuzzy);
    var h := KeyHash(key);
    assert |units| <= MAX_UNITS && OffsetsFit(units, TableStart(|units|));
    var img := Image(units);
    assert Written(units).bytes == img;
    UnitsOfShaped(entries, includeFuzzy);
    UnitsOfSpec(entries, includeFuzzy, h);
    DecodeImage(units, h);
    SameHash(key);
    match IndexOf(units, h)
    case None =>
    case Some(j) =>
      var e := entries[LastProducer(entries, includeFuzzy, h).value];
      ImageText(units, j, e.msgstr);
  }
}
