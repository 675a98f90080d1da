/** `parse_po` of translate/po2ymo.py: a line-by-line reading of a GNU gettext
    PO file into entries (context, source, translation, fuzzy flag).

    `parse_po_quoted` hands the quoted text to Python's `ast.literal_eval`;
    that library call is the parameter `unquote` here, `None` standing for a
    literal it rejects (the exception ends the whole parse). */
module PoParser {
  import opened Results
  import opened Seqs

  type Unquote = string -> Option<string>

  // ---------------------------------------------------------------------
  // Python string operations used by the parser.

  /** `str.isspace()` for one character: the characters Python strips. */
  predicate IsSpace(c: char)
  {
    || ('\t' <= c <= '\r')
    || ('\U{1C}' <= c <= ' ')
    || c == '\U{85}' || c == '\U{A0}' || c == '\U{1680}'
    || ('\U{2000}' <= c <= '\U{200A}')
    || c == '\U{2028}' || c == '\U{2029}' || c == '\U{202F}' || c == '\U{205F}' || c == '\U{3000}'
  }

  function StripLeft(s: string): (r: string)
    ensures |r| <= |s|
    ensures r == [] || !IsSpace(r[0])
  {
    if s != [] && IsSpace(s[0]) then StripLeft(s[1..]) else s
  }

  function StripRight(s: string): (r: string)
    ensures |r| <= |s|
    ensures r != [] ==> r[0] == s[0]
    ensures r == [] || !IsSpace(r[|r| - 1])
  {
    if s != [] && IsSpace(s[|s| - 1]) then StripRight(s[..|s| - 1]) else s
  }

  /** `str.strip()`: a slice of `s` that neither starts nor ends with white
      space. */
  function Strip(s: string): (r: string)
    ensures |r| <= |s|
    ensures r == [] || (!IsSpace(r[0]) && !IsSpace(r[|r| - 1]))
  {
    var l := StripLeft(s);
    StripRight(l)
  }

  /** A string that already neither starts nor ends with white space is left
      as it is. */
  lemma StripStable(s: string)
    requires s == [] || (!IsSpace(s[0]) && !IsSpace(s[|s| - 1]))
    ensures Strip(s) == s
  {
  }

  /** `StripLeft` removes exactly the leading white space: what it returns
      is a suffix of `s`, and everything before it is white space. */
  lemma {:induction false} StripLeftMeaning(s: string)
    ensures exists i ::
      && 0 <= i <= |s|
      && StripLeft(s) == s[i..]
      && forall k :: 0 <= k < i ==> IsSpace(s[k])
  {
    if s != [] && IsSpace(s[0]) {
      StripLeftMeaning(s[1..]);
      var i :| && 0 <= i <= |s[1..]|
               && StripLeft(s[1..]) == s[1..][i..]
               && forall k :: 0 <= k < i ==> IsSpace(s[1..][k]);
      assert s[1..][i..] == s[i + 1..];
      assert forall k :: 0 <= k < i + 1 ==> IsSpace(s[k]) by {
        forall k | 0 <= k < i + 1 ensures IsSpace(s[k]) {
          if k > 0 { assert s[k] == s[1..][k - 1]; }
        }
      }
    } else {
      assert StripLeft(s) == s[0..];
    }
  }

  /** `StripRight` removes exactly the trailing white space: what it returns
      is a prefix of `s`, and everything after it is white space. */
  lemma {:induction false} StripRightMeaning(s: string)
    ensures exists j ::
      && 0 <= j <= |s|
      && StripRight(s) == s[..j]
      && forall k :: j <= k < |s| ==> IsSpace(s[k])
  {
    if s != [] && IsSpace(s[|s| - 1]) {
      var init := s[..|s| - 1];
      StripRightMeaning(init);
      var j :| && 0 <= j <= |init|
               && StripRight(init) == init[..j]
               && forall k :: j <= k < |init| ==> IsSpace(init[k]);
      assert init[..j] == s[..j];
      assert forall k :: j <= k < |s| ==> IsSpace(s[k]) by {
        forall k | j <= k < |s| ensures IsSpace(s[k]) {
          if k < |init| { assert s[k] == init[k]; }
        }
      }
    } else {
      assert StripRight(s) == s[..|s|];
    }
  }

  /** `str.strip()` removes exactly the white space at both ends: the result
      is the slice `s[i..j]` and everything outside it is white space.  With
      `Strip`'s own contract (no white space at either end of the result)
      this fixes the result. */
  lemma StripMeaning(s: string)
    ensures exists i, j ::
      && 0 <= i <= j <= |s|
      && Strip(s) == s[i..j]
      && (forall k :: 0 <= k < i ==> IsSpace(s[k]))
      && (forall k :: j <= k < |s| ==> IsSpace(s[k]))
  {
    StripLeftMeaning(s);
    StripRightMeaning(StripLeft(s));
    TrimmedSlice(s, StripLeft(s), Strip(s));
  }

  /** Cutting white space off the front of `s` and then off the back of what
      is left leaves a slice of `s` with only white space outside it. */
  lemma TrimmedSlice(s: string, l: string, r: string)
    requires exists i ::
      && 0 <= i <= |s|
      && l == s[i..]
      && forall k :: 0 <= k < i ==> IsSpace(s[k])
    requires exists j ::
      && 0 <= j <= |l|
      && r == l[..j]
      && forall k :: j <= k < |l| ==> IsSpace(l[k])
    ensures exists a, b ::
      && 0 <= a <= b <= |s|
      && r == s[a..b]
      && (forall k :: 0 <= k < a ==> IsSpace(s[k]))
      && (forall k :: b <= k < |s| ==> IsSpace(s[k]))
  {
    var i :| 0 <= i <= |s| && l == s[i..] && forall k :: 0 <= k < i ==> IsSpace(s[k]);
    var j :| 0 <= j <= |l| && r == l[..j] && forall k :: j <= k < |l| ==> IsSpace(l[k]);
    forall k | i + j <= k < |s| ensures IsSpace(s[k]) {
      assert s[k] == l[k - i];
    }
    assert r == s[i..i + j];
  }

  /** `s.startswith(prefix)`. */
  predicate StartsWith(s: string, prefix: string)
  {
    |prefix| <= |s| && s[..|prefix|] == prefix
  }

  /** `sub in s`. */
  predicate Contains(s: string, sub: string)
    decreases |s|
  {
    StartsWith(s, sub) || (s != [] && Contains(s[1..], sub))
  }

  /** `s.find(c)`: the first index of `c`, `None` for -1. */
  function Find(s: string, c: char): (r: Option<nat>)
    ensures r.None? ==> c !in s
    ensures r.Some? ==> r.value < |s| && s[r.value] == c && forall k :: 0 <= k < r.value ==> s[k] != c
  {
    if s == [] then None
    else if s[0] == c then Some(0)
    else match Find(s[1..], c)
      case None => None
      case Some(i) => Some(i + 1)
  }

  // ---------------------------------------------------------------------
  // The line prefixes the parser recognises.

  const COMMENT: string := "#"
  const FLAGS_COMMENT: string := "#,"
  const FUZZY: string := "fuzzy"
  const MSGCTXT: string := "msgctxt "
  const MSGID: string := "msgid "
  const MSGSTR_PLURAL: string := "msgstr["
  const MSGSTR: string := "msgstr "
  const QUOTE: string := "\""
  /** The only plural index whose translation is kept. */
  const INDEX_ZERO: string := "0"

  // ---------------------------------------------------------------------
  // Parser state.

  /** The field that a quoted continuation line extends (`state`). */
  datatype Field = Msgctxt | Msgid | Msgstr

  /** The `current` dict: the entry being read. */
  datatype Current = Current(msgctxt: Option<string>, msgid: Option<string>, msgstr: Option<string>, fuzzy: bool)

  const EMPTY: Current := Current(None, None, None, false)

  /** One element of the returned `entries` list. */
  datatype Entry = Entry(msgctxt: Option<string>, msgid: string, msgstr: string, fuzzy: bool)

  /** Everything the line loop updates. */
  datatype Parser = Parser(entries: seq<Entry>, state: Option<Field>, current: Current)

  const START: Parser := Parser([], None, EMPTY)

  /** The entry `flush_entry` appends for `current`: a missing `msgstr`
      reads as `""` (`current["msgstr"] or ""`). */
  function Emitted(current: Current): Entry
    requires current.msgid.Some?
  {
    Entry(current.msgctxt, current.msgid.value, current.msgstr.GetOr(""), current.fuzzy)
  }

  /** `flush_entry`: emit the current entry if it has a `msgid`, then start
      a new one; without a `msgid` nothing happens.  The state is untouched. */
  function Flush(p: Parser): (r: Parser)
    ensures r.state == p.state
    ensures p.current.msgid.None? ==> r == p
    ensures p.current.msgid.Some? ==> r.entries == p.entries + [Emitted(p.current)] && r.current == EMPTY
  {
    if p.current.msgid.None? then p
    else p.(entries := p.entries + [Emitted(p.current)], current := EMPTY)
  }

  /** An entry with both a `msgid` and a `msgstr`, which a new `msgid` line
      ends. */
  predicate Complete(current: Current)
  {
    current.msgid.Some? && current.msgstr.Some?
  }

  /** A quoted continuation line extends the field `state` names, a missing
      value counting as `""`; with no state it is read and dropped. */
  function Extend(current: Current, state: Option<Field>, value: string): Current
  {
    match state
    case None => current
    case Some(Msgctxt) => current.(msgctxt := Some(current.msgctxt.GetOr("") + value))
    case Some(Msgid) => current.(msgid := Some(current.msgid.GetOr("") + value))
    case Some(Msgstr) => current.(msgstr := Some(current.msgstr.GetOr("") + value))
  }

  /** The effect of one line (one pass of the `for line in lines` body);
      `None` when `unquote` rejects the line's literal. */
  function Step(p: Parser, line: string, unquote: Unquote): Option<Parser>
  {
    var stripped := Strip(line);
    if stripped == [] then
      Some(Flush(p).(state := None))
    else if StartsWith(stripped, FLAGS_COMMENT) then
      if Contains(stripped, FUZZY) then Some(p.(current := p.current.(fuzzy := true))) else Some(p)
    else if StartsWith(stripped, COMMENT) then
      Some(p)
    else
      KeywordLine(p, stripped, unquote)
  }

  /** A stripped, non-blank line that is not a comment: a keyword line or a
      quoted continuation; anything else is ignored. */
  function KeywordLine(p: Parser, stripped: string, unquote: Unquote): Option<Parser>
  {
    if StartsWith(stripped, MSGCTXT) then
      match unquote(Strip(stripped[|MSGCTXT|..]))
      case None => None
      case Some(v) => Some(p.(current := p.current.(msgctxt := Some(v)), state := Some(Msgctxt)))
    else if StartsWith(stripped, MSGID) then
      match unquote(Strip(stripped[|MSGID|..]))
      case None => None
      case Some(v) => Some(NewMsgid(if Complete(p.current) then Flush(p) else p, v))
    else if StartsWith(stripped, MSGSTR_PLURAL) then
      PluralMsgstr(p, stripped, unquote)
    else if StartsWith(stripped, MSGSTR) then
      match unquote(Strip(stripped[|MSGSTR|..]))
      case None => None
      case Some(v) => Some(p.(current := p.current.(msgstr := Some(v)), state := Some(Msgstr)))
    else if StartsWith(stripped, QUOTE) then
      match unquote(Strip(stripped))
      case None => None
      case Some(v) => Some(p.(current := Extend(p.current, p.state, v)))
    else
      Some(p)
  }

  /** The `msgid` line's assignments once any flush has happened. */
  function NewMsgid(p: Parser, v: string): Parser
  {
    p.(current := p.current.(msgid := Some(v)), state := Some(Msgid))
  }

  /** A `msgstr[N]` line: only index 0 with a quoted value is kept; any
      other index clears the state; a line without `]` changes nothing. */
  function PluralMsgstr(p: Parser, stripped: string, unquote: Unquote): (r: Option<Parser>)
    ensures r.Some? ==> r.value.entries == p.entries
    ensures Find(stripped, ']').None? ==> r == Some(p)
  {
    match Find(stripped, ']')
    case None => Some(p)
    case Some(indexEnd) =>
      PluralValue(p, PluralIndex(stripped, indexEnd), Strip(stripped[indexEnd + 1..]), unquote)
  }

  /** `stripped[len("msgstr["):index_end]`.  A Python slice whose end comes
      before its start is empty; on a `msgstr[` line the first `]` always
      comes after the bracket (`PluralIndexAfterBracket`). */
  function PluralIndex(stripped: string, indexEnd: nat): string
    requires indexEnd <= |stripped|
  {
    if indexEnd < |MSGSTR_PLURAL| then [] else stripped[|MSGSTR_PLURAL|..indexEnd]
  }

  /** A `msgstr[index]` line once split at its first `]`: only index `0` with
      a quoted value is kept, as the singular `msgstr`; any other form ends
      the field without a value. */
  function PluralValue(p: Parser, index: string, valuePart: string, unquote: Unquote): (r: Option<Parser>)
    ensures r.Some? ==> r.value.entries == p.entries
    ensures r.None? ==> unquote(Strip(valuePart)).None?
    ensures !(StartsWith(valuePart, QUOTE) && index == INDEX_ZERO) ==> r == Some(p.(state := None))
    ensures StartsWith(valuePart, QUOTE) && index == INDEX_ZERO && unquote(Strip(valuePart)).Some? ==>
      r == Some(p.(current := p.current.(msgstr := unquote(Strip(valuePart))), state := Some(Msgstr)))
    ensures StartsWith(valuePart, QUOTE) && index == INDEX_ZERO && unquote(Strip(valuePart)).None? ==> r.None?
  {
    if StartsWith(valuePart, QUOTE) && index == INDEX_ZERO then
      match unquote(Strip(valuePart))
      case None => None
      case Some(v) => Some(p.(current := p.current.(msgstr := Some(v)), state := Some(Msgstr)))
    else Some(p.(state := None))
  }

  /** The first `]` of a `msgstr[` line comes after the bracket. */
  lemma PluralIndexAfterBracket(stripped: string, indexEnd: nat)
    requires StartsWith(stripped, MSGSTR_PLURAL)
    requires indexEnd < |stripped| && stripped[indexEnd] == ']'
    ensures indexEnd >= |MSGSTR_PLURAL|
  {
  }

  /** The line loop from state `p`, stopping at the first rejected literal. */
  function RunFrom(p: Parser, lines: seq<string>, unquote: Unquote): Option<Parser>
    decreases |lines|
  {
    if lines == [] then Some(p)
    else match Step(p, lines[0], unquote)
      case None => None
      case Some(q) => RunFrom(q, lines[1..], unquote)
  }

  /** What `parse_po` returns for a file of `lines`: the loop, then the final
      `flush_entry()`. */
  function ParseLines(lines: seq<string>, unquote: Unquote): Option<seq<Entry>>
  {
    match RunFrom(START, lines, unquote)
    case None => None
    case Some(p) => Some(Flush(p).entries)
  }

  /** Running over `a + b` is running over `a`, then over `b`. */
  lemma {:induction false} RunFromAppend(p: Parser, a: seq<string>, b: seq<string>, unquote: Unquote)
    ensures RunFrom(p, a + b, unquote) ==
      match RunFrom(p, a, unquote)
      case None => None
      case Some(q) => RunFrom(q, b, unquote)
    decreases |a|
  {
    if a == [] {
      assert a + b == b;
    } else {
      assert (a + b)[0] == a[0] && (a + b)[1..] == a[1..] + b;
      match Step(p, a[0], unquote)
      case None =>
      case Some(q) => RunFromAppend(q, a[1..], b, unquote);
    }
  }

  /** Running over one line is one step. */
  lemma RunFromOne(p: Parser, line: string, unquote: Unquote)
    ensures RunFrom(p, [line], unquote) == Step(p, line, unquote)
  {
    match Step(p, line, unquote)
    case None =>
    case Some(q) => assert RunFrom(q, [line][1..], unquote) == Some(q);
  }

  /** Appending one line to the input applies one more step. */
  lemma RunPrefixStep(lines: seq<string>, i: nat, p: Parser, unquote: Unquote)
    requires i < |lines| && RunFrom(START, lines[..i], unquote) == Some(p)
    ensures RunFrom(START, lines[..i + 1], unquote) == Step(p, lines[i], unquote)
  {
    PrefixSnoc(lines, i);
    RunFromAppend(START, lines[..i], [lines[i]], unquote);
    RunFromOne(p, lines[i], unquote);
  }

  /** A rejected literal ends the whole run. */
  lemma RunPrefixFails(lines: seq<string>, i: nat, unquote: Unquote)
    requires i <= |lines| && RunFrom(START, lines[..i], unquote) == None
    ensures RunFrom(START, lines, unquote) == None
  {
    PrefixSuffix(lines, i);
    RunFromAppend(START, lines[..i], lines[i..], unquote);
  }

  // ---------------------------------------------------------------------
  // Line-level rules.

  /** `str.strip()` is idempotent, so `parse_po_quoted` stripping an already
      stripped line changes nothing. */
  lemma StripIdempotent(s: string)
    ensures Strip(Strip(s)) == Strip(s)
  {
    StripStable(Strip(s));
  }

  /** A blank line ends the entry being read: the entry is emitted if it has
      a `msgid`, and the state is cleared either way. */
  lemma BlankLineEndsEntry(p: Parser, line: string, unquote: Unquote)
    requires Strip(line) == []
    ensures p.current.msgid.Some? ==>
      Step(p, line, unquote) == Some(Parser(p.entries + [Emitted(p.current)], None, EMPTY))
    ensures p.current.msgid.None? ==> Step(p, line, unquote) == Some(p.(state := None))
  {
  }

  /** A comment line changes nothing, except that a `#,` line mentioning
      "fuzzy" sets the fuzzy flag. */
  lemma CommentLine(p: Parser, line: string, unquote: Unquote)
    requires Strip(line) != [] && Strip(line)[0] == '#'
    ensures Step(p, line, unquote) == Some(p.(current := p.current.(fuzzy :=
      p.current.fuzzy || (StartsWith(Strip(line), FLAGS_COMMENT) && Contains(Strip(line), FUZZY)))))
  {
    var s := Strip(line);
    assert StartsWith(s, COMMENT) by { assert s[..1] == COMMENT; }
    var r := Step(p, line, unquote);
    if StartsWith(s, FLAGS_COMMENT) {
      if Contains(s, FUZZY) {
        assert r == Some(p.(current := p.current.(fuzzy := true)));
      } else {
        assert r == Some(p);
      }
    } else {
      assert r == Some(p);
    }
  }

  /** A stripped line that starts with a keyword is not a comment, and
      `msgid ` and `msgstr[` are not taken for an earlier keyword. */
  lemma KeywordIsNotComment(s: string, keyword: string)
    requires StartsWith(s, keyword) && |keyword| > 0 && keyword[0] == 'm'
    ensures s != [] && !StartsWith(s, COMMENT) && !StartsWith(s, FLAGS_COMMENT)
    ensures keyword == MSGID ==> !StartsWith(s, MSGCTXT)
    ensures keyword == MSGSTR_PLURAL ==> !StartsWith(s, MSGCTXT) && !StartsWith(s, MSGID)
    ensures keyword == MSGSTR ==>
      !StartsWith(s, MSGCTXT) && !StartsWith(s, MSGID) && !StartsWith(s, MSGSTR_PLURAL)
  {
    assert s[0] == keyword[0] by { assert s[..|keyword|][0] == s[0]; }
    DiffersAt(s, COMMENT, 0);
    DiffersAt(s, FLAGS_COMMENT, 0);
    if keyword == MSGID {
      assert s[3] == 'i' by { assert s[..6][3] == s[3]; }
      DiffersAt(s, MSGCTXT, 3);
    } else if keyword == MSGSTR_PLURAL {
      assert s[3] == 's' by { assert s[..7][3] == s[3]; }
      DiffersAt(s, MSGCTXT, 3);
      DiffersAt(s, MSGID, 3);
    } else if keyword == MSGSTR {
      assert s[3] == 's' && s[6] == ' ' by { assert s[..7][3] == s[3] && s[..7][6] == s[6]; }
      DiffersAt(s, MSGCTXT, 3);
      DiffersAt(s, MSGID, 3);
      DiffersAt(s, MSGSTR_PLURAL, 6);
    }
  }

  /** A stripped line that starts with a quote is a continuation line. */
  lemma QuotedIsContinuation(s: string)
    requires StartsWith(s, QUOTE)
    ensures s != [] && !StartsWith(s, COMMENT) && !StartsWith(s, FLAGS_COMMENT)
    ensures !StartsWith(s, MSGCTXT) && !StartsWith(s, MSGID)
    ensures !StartsWith(s, MSGSTR_PLURAL) && !StartsWith(s, MSGSTR)
  {
    assert s[0] == '"' by { assert s[..1][0] == s[0]; }
    DiffersAt(s, COMMENT, 0);
    DiffersAt(s, FLAGS_COMMENT, 0);
    DiffersAt(s, MSGCTXT, 0);
    DiffersAt(s, MSGID, 0);
    DiffersAt(s, MSGSTR_PLURAL, 0);
    DiffersAt(s, MSGSTR, 0);
  }

  /** `s.startswith(prefix)` fails as soon as one character differs. */
  lemma DiffersAt(s: string, prefix: string, i: nat)
    requires i < |s| && i < |prefix| && s[i] != prefix[i]
    ensures !StartsWith(s, prefix)
  {
    if |prefix| <= |s| {
      assert s[..|prefix|][i] == s[i];
    }
  }

  /** A `msgid` line ends the previous entry when that entry has both a
      `msgid` and a `msgstr`; otherwise the entries are kept and only the
      `msgid` is replaced. */
  lemma NewMsgidEndsEntry(p: Parser, line: string, unquote: Unquote, v: string)
    requires StartsWith(Strip(line), MSGID)
    requires unquote(Strip(Strip(line)[|MSGID|..])) == Some(v)
    ensures Complete(p.current) ==>
      Step(p, line, unquote) == Some(Parser(p.entries + [Emitted(p.current)], Some(Msgid), EMPTY.(msgid := Some(v))))
    ensures !Complete(p.current) ==>
      Step(p, line, unquote) == Some(Parser(p.entries, Some(Msgid), p.current.(msgid := Some(v))))
  {
    KeywordIsNotComment(Strip(line), MSGID);
  }

  /** Only `msgstr[0]` of a plural entry is kept: any other index clears the
      state (so its continuation lines are dropped) and leaves the entry as
      it is. */
  lemma PluralIndexZeroOnly(p: Parser, line: string, unquote: Unquote, indexEnd: nat)
    requires StartsWith(Strip(line), MSGSTR_PLURAL)
    requires Find(Strip(line), ']') == Some(indexEnd)
    ensures indexEnd >= |MSGSTR_PLURAL|
    ensures Strip(line)[|MSGSTR_PLURAL|..indexEnd] != INDEX_ZERO ==> Step(p, line, unquote) == Some(p.(state := None))
    ensures Step(p, line, unquote).Some? && Step(p, line, unquote).value.current != p.current ==>
      Strip(line)[|MSGSTR_PLURAL|..indexEnd] == INDEX_ZERO
    ensures var valuePart := Strip(Strip(line)[indexEnd + 1..]);
      Strip(line)[|MSGSTR_PLURAL|..indexEnd] == INDEX_ZERO && StartsWith(valuePart, QUOTE) && unquote(valuePart).Some? ==>
        Step(p, line, unquote) == Some(p.(current := p.current.(msgstr := unquote(valuePart)), state := Some(Msgstr)))
    ensures var valuePart := Strip(Strip(line)[indexEnd + 1..]);
      Strip(line)[|MSGSTR_PLURAL|..indexEnd] == INDEX_ZERO && StartsWith(valuePart, QUOTE) && unquote(valuePart).None? ==>
        Step(p, line, unquote) == None
  {
    PluralIndexAfterBracket(Strip(line), indexEnd);
    KeywordIsNotComment(Strip(line), MSGSTR_PLURAL);
    StripIdempotent(Strip(line)[indexEnd + 1..]);
  }

  /** A `msgctxt `, `msgid ` or `msgstr ` line whose literal `unquote`
      rejects fails the parse; an accepted `msgctxt ` or `msgstr ` literal
      becomes that field's value and the field the continuation lines
      extend. */
  lemma KeywordLiteral(p: Parser, line: string, unquote: Unquote, keyword: string)
    requires keyword == MSGCTXT || keyword == MSGID || keyword == MSGSTR
    requires StartsWith(Strip(line), keyword)
    ensures unquote(Strip(Strip(line)[|keyword|..])).None? ==> Step(p, line, unquote) == None
    ensures keyword == MSGCTXT && unquote(Strip(Strip(line)[|keyword|..])).Some? ==>
      Step(p, line, unquote)
        == Some(p.(current := p.current.(msgctxt := unquote(Strip(Strip(line)[|keyword|..]))), state := Some(Msgctxt)))
    ensures keyword == MSGSTR && unquote(Strip(Strip(line)[|keyword|..])).Some? ==>
      Step(p, line, unquote)
        == Some(p.(current := p.current.(msgstr := unquote(Strip(Strip(line)[|keyword|..]))), state := Some(Msgstr)))
  {
    KeywordIsNotComment(Strip(line), keyword);
  }

  /** A quoted line appends its value to the field the state names (and is
      dropped without a state); a rejected literal ends the parse. */
  lemma ContinuationExtendsField(p: Parser, line: string, unquote: Unquote)
    requires StartsWith(Strip(line), QUOTE)
    ensures unquote(Strip(line)).None? ==> Step(p, line, unquote) == None
    ensures unquote(Strip(line)).Some? ==>
      Step(p, line, unquote) == Some(p.(current := Extend(p.current, p.state, unquote(Strip(line)).value)))
  {
    StripIdempotent(line);
    QuotedIsContinuation(Strip(line));
  }

  /** One line never removes an entry and emits at most one. */
  lemma StepKeepsEntries(p: Parser, line: string, unquote: Unquote)
    requires Step(p, line, unquote).Some?
    ensures p.entries <= Step(p, line, unquote).value.entries
    ensures |Step(p, line, unquote).value.entries| <= |p.entries| + 1
  {
    var s := Strip(line);
    if s == [] {
      BlankLineEndsEntry(p, line, unquote);
    } else if StartsWith(s, COMMENT) {
      assert s[0] == '#' by { assert s[..1][0] == s[0]; }
      CommentLine(p, line, unquote);
    } else {
      assert s[..1] == [s[0]];
      DiffersAt(s, FLAGS_COMMENT, 0);
      assert Step(p, line, unquote) == KeywordLine(p, s, unquote);
      KeywordLineKeepsEntries(p, s, unquote);
    }
  }

  /** The keyword and continuation branches emit at most the flushed entry. */
  lemma KeywordLineKeepsEntries(p: Parser, stripped: string, unquote: Unquote)
    requires KeywordLine(p, stripped, unquote).Some?
    ensures p.entries <= KeywordLine(p, stripped, unquote).value.entries
    ensures |KeywordLine(p, stripped, unquote).value.entries| <= |p.entries| + 1
  {
    if !StartsWith(stripped, MSGCTXT) && StartsWith(stripped, MSGID) {
      MsgidLineEntries(p, stripped, unquote);
    } else {
      OtherLineEntries(p, stripped, unquote);
    }
  }

  /** A `msgid` line appends the flushed entry or nothing. */
  lemma MsgidLineEntries(p: Parser, stripped: string, unquote: Unquote)
    requires !StartsWith(stripped, MSGCTXT) && StartsWith(stripped, MSGID)
    requires KeywordLine(p, stripped, unquote).Some?
    ensures p.entries <= KeywordLine(p, stripped, unquote).value.entries
    ensures |KeywordLine(p, stripped, unquote).value.entries| <= |p.entries| + 1
  {
    var v := unquote(Strip(stripped[|MSGID|..])).value;
    assert KeywordLine(p, stripped, unquote).value == NewMsgid(if Complete(p.current) then Flush(p) else p, v);
  }

  /** Every other keyword or continuation line leaves the entries alone. */
  lemma OtherLineEntries(p: Parser, stripped: string, unquote: Unquote)
    requires StartsWith(stripped, MSGCTXT) || !StartsWith(stripped, MSGID)
    requires KeywordLine(p, stripped, unquote).Some?
    ensures KeywordLine(p, stripped, unquote).value.entries == p.entries
  {
    var r := KeywordLine(p, stripped, unquote);
    if StartsWith(stripped, MSGCTXT) {
      var v := unquote(Strip(stripped[|MSGCTXT|..])).value;
      assert r == Some(p.(current := p.current.(msgctxt := Some(v)), state := Some(Msgctxt)));
    } else if StartsWith(stripped, MSGSTR_PLURAL) {
      assert r == PluralMsgstr(p, stripped, unquote);
    } else if StartsWith(stripped, MSGSTR) {
      var v := unquote(Strip(stripped[|MSGSTR|..])).value;
      assert r == Some(p.(current := p.current.(msgstr := Some(v)), state := Some(Msgstr)));
    } else if StartsWith(stripped, QUOTE) {
      var v := unquote(Strip(stripped)).value;
      assert r == Some(p.(current := Extend(p.current, p.state, v)));
    } else {
      assert r == Some(p);
    }
  }

  /** The entries read so far are never revised by later lines. */
  lemma {:induction false} RunKeepsEntries(p: Parser, lines: seq<string>, unquote: Unquote)
    requires RunFrom(p, lines, unquote).Some?
    ensures p.entries <= RunFrom(p, lines, unquote).value.entries
    decreases |lines|
  {
    if lines != [] {
      StepKeepsEntries(p, lines[0], unquote);
      RunKeepsEntries(Step(p, lines[0], unquote).value, lines[1..], unquote);
    }
  }

  /** A literal that `ast.literal_eval` rejects makes `parse_po` raise,
      whatever follows it. */
  lemma RejectedLiteralFailsParse(lines: seq<string>, i: nat, p: Parser, unquote: Unquote)
    requires i < |lines| && RunFrom(START, lines[..i], unquote) == Some(p)
    requires Step(p, lines[i], unquote).None?
    ensures ParseLines(lines, unquote) == None
  {
    RunPrefixStep(lines, i, p, unquote);
    RunPrefixFails(lines, i + 1, unquote);
  }

  // ---------------------------------------------------------------------
  // The loop as written.

  /** `flush_entry` on the loop's variables. */
  method FlushEntry(entries: seq<Entry>, state: Option<Field>, current: Current) returns (entries': seq<Entry>, current': Current)
    ensures Parser(entries', state, current') == Flush(Parser(entries, state, current))
  {
    entries', current' := entries, current;
    if current.msgid.None? {
      return;
    }
    entries' := entries' + [Entry(current.msgctxt, current.msgid.value, current.msgstr.GetOr(""), current.fuzzy)];
    current' := EMPTY;
  }

  /** One pass of the loop body over `line`; `ok` is false when the line's
      literal is rejected, which ends the parse. */
  method ParseLine(entries: seq<Entry>, state: Option<Field>, current: Current, line: string, unquote: Unquote)
    returns (ok: bool, entries': seq<Entry>, state': Option<Field>, current': Current)
    ensures ok <==> Step(Parser(entries, state, current), line, unquote).Some?
    ensures ok ==> Step(Parser(entries, state, current), line, unquote) == Some(Parser(entries', state', current'))
  {
    ok, entries', state', current' := true, entries, state, current;
    var stripped := Strip(line);
    if stripped == [] {
      entries', current' := FlushEntry(entries', state', current');
      state' := None;
      return;
    }
    if StartsWith(stripped, FLAGS_COMMENT) {
      if Contains(stripped, FUZZY) {
        current' := current'.(fuzzy := true);
      }
      return;
    }
    if StartsWith(stripped, COMMENT) {
      return;
    }
    ok, entries', state', current' := ParseKeywordLine(entries, state, current, stripped, unquote);
  }

  /** The keyword and continuation branches of the loop body. */
  method ParseKeywordLine(entries: seq<Entry>, state: Option<Field>, current: Current, stripped: string, unquote: Unquote)
    returns (ok: bool, entries': seq<Entry>, state': Option<Field>, current': Current)
    ensures ok <==> KeywordLine(Parser(entries, state, current), stripped, unquote).Some?
    ensures ok ==> KeywordLine(Parser(entries, state, current), stripped, unquote) == Some(Parser(entries', state', current'))
  {
    ok, entries', state', current' := true, entries, state, current;
    if StartsWith(stripped, MSGCTXT) {
      var v := unquote(Strip(stripped[|MSGCTXT|..]));
      if v.None? {
        return false, entries', state', current';
      }
      current' := current'.(msgctxt := Some(v.value));
      state' := Some(Msgctxt);
      return;
    }
    if StartsWith(stripped, MSGID) {
      if current'.msgid.Some? && current'.msgstr.Some? {
        entries', current' := FlushEntry(entries', state', current');
      }
      var v := unquote(Strip(stripped[|MSGID|..]));
      if v.None? {
        return false, entries', state', current';
      }
      current' := current'.(msgid := Some(v.value));
      state' := Some(Msgid);
      return;
    }
    if StartsWith(stripped, MSGSTR_PLURAL) {
      ok, state', current' := ParsePluralMsgstr(entries, state, current, stripped, unquote);
      return;
    }
    if StartsWith(stripped, MSGSTR) {
      var v := unquote(Strip(stripped[|MSGSTR|..]));
      if v.None? {
        return false, entries', state', current';
      }
      current' := current'.(msgstr := Some(v.value));
      state' := Some(Msgstr);
      return;
    }
    if StartsWith(stripped, QUOTE) {
      var v := unquote(Strip(stripped));
      if v.None? {
        return false, entries', state', current';
      }
      if state' == Some(Msgctxt) {
        current' := current'.(msgctxt := Some(current'.msgctxt.GetOr("") + v.value));
      } else if state' == Some(Msgid) {
        current' := current'.(msgid := Some(current'.msgid.GetOr("") + v.value));
      } else if state' == Some(Msgstr) {
        current' := current'.(msgstr := Some(current'.msgstr.GetOr("") + v.value));
      }
    }
  }

  /** The `msgstr[` branch of the loop body. */
  method ParsePluralMsgstr(entries: seq<Entry>, state: Option<Field>, current: Current, stripped: string, unquote: Unquote)
    returns (ok: bool, state': Option<Field>, current': Current)
    ensures ok <==> PluralMsgstr(Parser(entries, state, current), stripped, unquote).Some?
    ensures ok ==> PluralMsgstr(Parser(entries, state, current), stripped, unquote) == Some(Parser(entries, state', current'))
  {
    ok, state', current' := true, state, current;
    ghost var p := Parser(entries, state, current);
    var found := Find(stripped, ']');
    if found.None? {
      assert PluralMsgstr(p, stripped, unquote) == Some(p);
      return;
    }
    var indexEnd := found.value;
    var index := PluralIndex(stripped, indexEnd);
    var valuePart := Strip(stripped[indexEnd + 1..]);
    if StartsWith(valuePart, QUOTE) && index == INDEX_ZERO {
      var v := unquote(Strip(valuePart));
      if v.None? {
        return false, state', current';
      }
      current' := current'.(msgstr := Some(v.value));
      state' := Some(Msgstr);
    } else {
      state' := None;
    }
  }

  /** `parse_po(path)` once the file has been read into `lines`. */
  method ParsePo(lines: seq<string>, unquote: Unquote) returns (result: Option<seq<Entry>>)
    ensures result == ParseLines(lines, unquote)
  {
    var entries: seq<Entry> := [];
    var state: Option<Field> := None;
    var current := EMPTY;

    for i := 0 to |lines|
      invariant RunFrom(START, lines[..i], unquote) == Some(Parser(entries, state, current))
    {
      RunPrefixStep(lines, i, Parser(entries, state, current), unquote);
      var ok;
      ok, entries, state, current := ParseLine(entries, state, current, lines[i], unquote);
      if !ok {
        RunPrefixFails(lines, i + 1, unquote);
        return None;
      }
    }
    assert lines[..|lines|] == lines;
    entries, current := FlushEntry(entries, state, current);
    return Some(entries);
  }
}
