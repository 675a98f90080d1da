/** The YMO reader of I18n.hpp: `LoadTranslateData` turns the resource bytes
    into the hash -> string table, `Translate` and `TranslateContext` look
    strings up in it.

    A YMO image is a little-endian 16-bit record count, then that many 6-byte
    records (32-bit hash, 16-bit byte offset), then NUL-terminated UTF-16LE
    strings that the offsets point at.  The loader trusts nothing in it: a
    header that does not fit leaves the table as it was, and each record is
    checked on its own before its string is admitted. */
module I18n {
  import opened Bytes
  import opened Fnv
  import opened Results

  /** `sizeof(uint16_t)`: the record table starts after the count. */
  const TABLE_OFFSET: nat := 2
  /** `sizeof(uint32_t) + sizeof(uint16_t)`. */
  const ENTRY_SIZE: nat := 6
  /** `sizeof(wchar_t)` on Windows. */
  const WCHAR_SIZE: nat := 2

  // ---------------------------------------------------------------------
  // The image, read as the loader reads it.

  /** The header fits: the count can be read and the declared records lie
      inside the buffer (I18n.hpp:12-15 and 51-54). */
  predicate HeaderFits(buf: seq<Byte>)
  {
    |buf| >= TABLE_OFFSET && |buf| >= EntryOffset(ReadU16(buf, 0))
  }

  /** The declared number of records, `len`. */
  function RecordCount(buf: seq<Byte>): (n: nat)
    requires |buf| >= TABLE_OFFSET
    ensures n < TWO16
  {
    ReadU16(buf, 0)
  }

  /** Where record `i` starts: `tableOffset + i * entrySize`. */
  function EntryOffset(i: nat): nat
  {
    2 + 6 * i
  }

  /** The hash field of record `i`. */
  function RecordHash(buf: seq<Byte>, i: nat): (h: nat)
    requires HeaderFits(buf) && i < RecordCount(buf)
    ensures h < TWO32
  {
    ReadU32(buf, EntryOffset(i))
  }

  /** The offset field of record `i`. */
  function RecordOffset(buf: seq<Byte>, i: nat): (off: nat)
    requires HeaderFits(buf) && i < RecordCount(buf)
    ensures off < TWO16
  {
    ReadU16(buf, EntryOffset(i) + 4)
  }

  /** Code unit `k` of the wide string that starts at byte `off`. */
  function UnitAt(buf: seq<Byte>, off: nat, k: nat): CodeUnit
    requires off + WCHAR_SIZE * (k + 1) <= |buf|
  {
    ReadU16(buf, off + WCHAR_SIZE * k)
  }

  /** Some code unit among the first `maxChars` at `off` is zero. */
  predicate HasNulWithin(buf: seq<Byte>, off: nat, maxChars: nat)
    requires off + WCHAR_SIZE * maxChars <= |buf|
  {
    exists k :: 0 <= k < maxChars && UnitAt(buf, off, k) == 0
  }

  /** The number of whole code units between `off` and the end of the buffer. */
  function MaxChars(buf: seq<Byte>, off: nat): (m: nat)
    requires off < |buf|
    ensures off + WCHAR_SIZE * m <= |buf| < off + WCHAR_SIZE * (m + 1)
  {
    (|buf| - off) / WCHAR_SIZE
  }

  /** The checks a record's offset must pass before its string is admitted
      (I18n.hpp:65-81): inside the buffer, aligned to a code unit, at least
      one whole code unit left, and a zero code unit among those left. */
  predicate OffsetAccepted(buf: seq<Byte>, off: nat)
  {
    && off < |buf|
    && off % WCHAR_SIZE == 0
    && MaxChars(buf, off) > 0
    && HasNulWithin(buf, off, MaxChars(buf, off))
  }

  predicate RecordAccepted(buf: seq<Byte>, i: nat)
    requires HeaderFits(buf) && i < RecordCount(buf)
  {
    OffsetAccepted(buf, RecordOffset(buf, i))
  }

  /** The wide string a `const wchar_t*` at byte `off` denotes: the code units
      up to, not including, the first zero one.  The scan also stops at the
      end of the buffer, so it is total; for an accepted offset it always
      ends at a zero unit inside the buffer (`AcceptedTextInBounds`). */
  function TextAt(buf: seq<Byte>, off: nat): (r: seq<CodeUnit>)
    requires off <= |buf|
    ensures 0 !in r
    ensures off + WCHAR_SIZE * |r| <= |buf|
    ensures forall k :: 0 <= k < |r| ==> r[k] == UnitAt(buf, off, k)
    decreases |buf| - off
  {
    if off + WCHAR_SIZE > |buf| || ReadU16(buf, off) == 0 then []
    else [ReadU16(buf, off)] + TextAt(buf, off + WCHAR_SIZE)
  }

  /** The string of an accepted offset ends at a zero code unit that lies
      inside the buffer, so no reader of it goes past `size`. */
  lemma AcceptedTextInBounds(buf: seq<Byte>, off: nat)
    requires OffsetAccepted(buf, off)
    ensures off + WCHAR_SIZE * (|TextAt(buf, off)| + 1) <= |buf|
    ensures UnitAt(buf, off, |TextAt(buf, off)|) == 0
  {
    var k :| 0 <= k < MaxChars(buf, off) && UnitAt(buf, off, k) == 0;
    TextEndsAtNul(buf, off, k);
  }

  lemma {:induction false} TextEndsAtNul(buf: seq<Byte>, off: nat, k: nat)
    requires off + WCHAR_SIZE * (k + 1) <= |buf| && UnitAt(buf, off, k) == 0
    ensures |TextAt(buf, off)| <= k
    ensures UnitAt(buf, off, |TextAt(buf, off)|) == 0
    decreases k
  {
    if ReadU16(buf, off) != 0 {
      assert k > 0;
      assert UnitAt(buf, off + WCHAR_SIZE, k - 1) == UnitAt(buf, off, k);
      TextEndsAtNul(buf, off + WCHAR_SIZE, k - 1);
      assert UnitAt(buf, off + WCHAR_SIZE, |TextAt(buf, off + WCHAR_SIZE)|)
          == UnitAt(buf, off, |TextAt(buf, off)|);
    }
  }

  // ---------------------------------------------------------------------
  // The table the loop builds.

  /** The table after the loop has visited records `0 .. n-1`: an accepted
      record is added unless its hash is already present (`emplace` keeps the
      first string), a rejected one is skipped. */
  function TableAfter(buf: seq<Byte>, n: nat): map<nat, nat>
    requires HeaderFits(buf) && n <= RecordCount(buf)
  {
    if n == 0 then map[]
    else
      var t := TableAfter(buf, n - 1);
      var hash, off := RecordHash(buf, n - 1), RecordOffset(buf, n - 1);
      if OffsetAccepted(buf, off) && hash !in t then t[hash := off] else t
  }

  /** The table a successful load leaves: every one of the `len` records
      visited. */
  function DecodeTable(buf: seq<Byte>): map<nat, nat>
    requires HeaderFits(buf)
  {
    TableAfter(buf, RecordCount(buf))
  }

  /** Only strings that passed the checks are in the table: each one is
      NUL-terminated inside the buffer. */
  lemma {:induction false} TableAfterAccepted(buf: seq<Byte>, n: nat)
    requires HeaderFits(buf) && n <= RecordCount(buf)
    ensures forall h :: h in TableAfter(buf, n) ==> OffsetAccepted(buf, TableAfter(buf, n)[h])
  {
    if n > 0 {
      TableAfterAccepted(buf, n - 1);
    }
  }

  /** A hash is in the table exactly when some visited record with that hash
      passed the checks: a rejected record neither stops the loop nor hides a
      later one. */
  lemma {:induction false} TableAfterKeys(buf: seq<Byte>, n: nat, h: nat)
    requires HeaderFits(buf) && n <= RecordCount(buf)
    ensures h in TableAfter(buf, n) <==>
      exists i :: 0 <= i < n && RecordHash(buf, i) == h && RecordAccepted(buf, i)
  {
    if n > 0 {
      TableAfterKeys(buf, n - 1, h);
      if RecordHash(buf, n - 1) == h && RecordAccepted(buf, n - 1) {
        assert h in TableAfter(buf, n);
      }
    }
  }

  /** For a duplicated hash the first accepted record's string is kept. */
  lemma {:induction false} FirstAcceptedWins(buf: seq<Byte>, n: nat, i: nat)
    requires HeaderFits(buf) && i < n <= RecordCount(buf)
    requires RecordAccepted(buf, i)
    requires forall j :: 0 <= j < i ==> !(RecordAccepted(buf, j) && RecordHash(buf, j) == RecordHash(buf, i))
    ensures RecordHash(buf, i) in TableAfter(buf, n)
    ensures TableAfter(buf, n)[RecordHash(buf, i)] == RecordOffset(buf, i)
  {
    var h := RecordHash(buf, i);
    if n - 1 == i {
      TableAfterKeys(buf, i, h);
    } else {
      FirstAcceptedWins(buf, n - 1, i);
    }
  }

  // ---------------------------------------------------------------------
  // Lookup.

  /** A `const wchar_t*`: a string literal of the program, told apart by its
      identity, or a string inside the loaded resource, at a byte offset. */
  datatype Ptr = Literal(id: nat) | Resource(offset: nat)

  /** The hash `Translate` computes: FNV-1a over the string's code units as
      little-endian bytes, `wcslen(str) * sizeof(wchar_t)` of them. */
  function TextHash(text: seq<CodeUnit>): (h: nat)
    ensures h < TWO32
  {
    Fnv1a32(Utf16Le(text))
  }

  /** What an uncached `Translate` resolves to: the table's string when the
      hash is present, otherwise the argument itself. */
  function Resolve(table: map<nat, nat>, str: Ptr, text: seq<CodeUnit>): (r: Ptr)
    ensures TextHash(text) in table ==> r == Resource(table[TextHash(text)])
    ensures TextHash(text) !in table ==> r == str
  {
    var hash := TextHash(text);
    if hash in table then Resource(table[hash]) else str
  }

  /** For a string literal, falling back to the argument is the same as the
      hash missing from the table: this is what `TranslateContext` tests. */
  lemma LiteralFallbackIffMiss(table: map<nat, nat>, str: Ptr, text: seq<CodeUnit>)
    requires str.Literal?
    ensures Resolve(table, str, text) == str <==> TextHash(text) !in table
  {
  }

  /** The key the `C_` macro passes: `ctxt L"\004" str`, a single literal.  It
      holds no zero unit when its parts hold none, so `Translate` hashes all
      of it. */
  function ContextKey(ctxt: seq<CodeUnit>, msgid: seq<CodeUnit>): (key: seq<CodeUnit>)
    ensures |key| == |ctxt| + 1 + |msgid|
    ensures key[..|ctxt|] == ctxt && key[|ctxt|] == 4 && key[|ctxt| + 1..] == msgid
    ensures 0 !in ctxt && 0 !in msgid ==> 0 !in key
  {
    ctxt + [4] + msgid
  }

  /** The loaded table and the `Translate` cache.  The C++ code keeps them in a
      global and in a function-local static; one object holds both here. */
  class Translator {
    /** The resource the table's offsets point into. */
    var resource: seq<Byte>
    /** `hashToStrMap`: hash -> byte offset of the string in `resource`. */
    var hashToStrMap: map<nat, nat>
    /** `ptrToStrMap`: source pointer -> the pointer `Translate` returned. */
    var ptrToStrMap: map<Ptr, Ptr>

    /** Every string in the table is NUL-terminated inside the resource. */
    ghost predicate Valid()
      reads this
    {
      forall h :: h in hashToStrMap ==> OffsetAccepted(resource, hashToStrMap[h])
    }

    constructor ()
      ensures Valid()
      ensures resource == [] && hashToStrMap == map[] && ptrToStrMap == map[]
    {
      resource := [];
      hashToStrMap := map[];
      ptrToStrMap := map[];
    }

    /** `hasNullTerminator`: scan the first `maxChars` code units at `off`. */
    static method HasNullTerminator(buf: seq<Byte>, off: nat, maxChars: nat) returns (found: bool)
      requires off + WCHAR_SIZE * maxChars <= |buf|
      ensures found <==> HasNulWithin(buf, off, maxChars)
    {
      for i := 0 to maxChars
        invariant forall k :: 0 <= k < i ==> UnitAt(buf, off, k) != 0
      {
        if ReadU16(buf, off + WCHAR_SIZE * i) == 0 {
          assert UnitAt(buf, off, i) == 0;
          return true;
        }
      }
      return false;
    }

    /** `LoadTranslateData` once the resource has been located: `res` is its
        bytes, `None` when it is missing or cannot be locked.  A header that
        does not fit returns before the table is cleared; otherwise the table
        is rebuilt from this buffer alone.  The cache is not touched. */
    method LoadTranslateData(res: Option<seq<Byte>>)
      requires Valid()
      modifies this`resource, this`hashToStrMap
      ensures Valid()
      ensures res.Some? && HeaderFits(res.value) ==>
        resource == res.value && hashToStrMap == DecodeTable(res.value)
      ensures !(res.Some? && HeaderFits(res.value)) ==>
        resource == old(resource) && hashToStrMap == old(hashToStrMap)
    {
      if res.None? {
        return;
      }
      var base := res.value;
      var size := |base|;
      if size < TABLE_OFFSET {
        return;
      }
      var len := ReadU16(base, 0);
      if size < EntryOffset(len) {
        return;
      }

      hashToStrMap := map[];
      resource := base;
      for i := 0 to len
        invariant resource == base
        invariant hashToStrMap == TableAfter(base, i)
      {
        var entryOffset := EntryOffset(i);
        var hash := ReadU32(base, entryOffset);
        var offset := ReadU16(base, entryOffset + 4);
        assert hash == RecordHash(base, i) && offset == RecordOffset(base, i);

        if offset >= size || offset % WCHAR_SIZE != 0 {
          continue;
        }
        var bytesRemaining := size - offset;
        var maxChars := bytesRemaining / WCHAR_SIZE;
        assert maxChars == MaxChars(base, offset);
        if maxChars == 0 {
          continue;
        }
        var terminated := HasNullTerminator(base, offset, maxChars);
        if !terminated {
          continue;
        }
        assert OffsetAccepted(base, offset);
        if hash !in hashToStrMap {
          hashToStrMap := hashToStrMap[hash := offset];
        }
      }
      TableAfterAccepted(base, len);
    }

    /** `Translate`: a pointer seen before gets its cached answer without
        hashing, even if the table has changed since; otherwise the answer is
        resolved against the table and cached.  `text` is the content of
        `str` up to its terminator. */
    method Translate(str: Ptr, text: seq<CodeUnit>) returns (translation: Ptr)
      requires 0 !in text
      modifies this`ptrToStrMap
      ensures str in old(ptrToStrMap) ==>
        translation == old(ptrToStrMap)[str] && ptrToStrMap == old(ptrToStrMap)
      ensures str !in old(ptrToStrMap) ==>
        translation == Resolve(hashToStrMap, str, text)
        && ptrToStrMap == old(ptrToStrMap)[str := translation]
      ensures old(ptrToStrMap).Keys <= ptrToStrMap.Keys
      ensures forall p :: p in old(ptrToStrMap) ==> ptrToStrMap[p] == old(ptrToStrMap)[p]
    {
      translation := str;
      if str !in ptrToStrMap {
        var hash := ComputeFnv1a32(Utf16Le(text));
        if hash in hashToStrMap {
          translation := Resource(hashToStrMap[hash]);
        }
        ptrToStrMap := ptrToStrMap[str := translation];
      } else {
        translation := ptrToStrMap[str];
      }
    }

    /** `TranslateContext(str, ctxtStr)`: translate the combined key and drop
        back to `str` when the key came back unchanged. */
    method TranslateContext(str: Ptr, ctxtStr: Ptr, ctxtText: seq<CodeUnit>) returns (r: Ptr)
      requires 0 !in ctxtText
      modifies this`ptrToStrMap
      ensures ctxtStr in old(ptrToStrMap) ==>
        ptrToStrMap == old(ptrToStrMap)
        && r == (if old(ptrToStrMap)[ctxtStr] == ctxtStr then str else old(ptrToStrMap)[ctxtStr])
      ensures ctxtStr !in old(ptrToStrMap) && ctxtStr.Literal? ==>
        ptrToStrMap == old(ptrToStrMap)[ctxtStr := Resolve(hashToStrMap, ctxtStr, ctxtText)]
        && (TextHash(ctxtText) in hashToStrMap ==> r == Resource(hashToStrMap[TextHash(ctxtText)]))
        && (TextHash(ctxtText) !in hashToStrMap ==> r == str)
    {
      var translation := Translate(ctxtStr, ctxtText);
      if translation == ctxtStr {
        return str;
      }
      return translation;
    }
  }
}
