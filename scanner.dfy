/**
 * The fixed-column log-line scanner of the PowerPC test-vector generator.
 *
 * A log line holds a mnemonic in columns 0..7 and, from column 12 on, a row of
 * tagged fields whose tag decides both the field's width and where its
 * 10-character value sits. Two loops walk that row: `find_imm`, which looks
 * for the immediate operand, and the field scan, which collects the operand
 * tokens. Both are methods here, each proved against a recursive function that
 * reads the row through one declarative table of tags and widths.
 *
 * Python's own string semantics that the script relies on are modelled too:
 * slices that clamp at the end of the string, `str.startswith`, `str.strip`
 * and `str.rstrip`, and `int(s, 16)`.
 */
module LogScanner {
  import opened Wrappers

  // ---------------------------------------------------------------------------
  // Python string operations.

  /** `s[i:j]` for non-negative `i`, `j`: both bounds clamp at `len(s)`. */
  function Slice(s: string, i: nat, j: nat): (r: string)
    ensures |r| == if i < j && i < |s| then (if j <= |s| then j else |s|) - i else 0
  {
    var hi := if j <= |s| then j else |s|;
    var lo := if i <= hi then i else hi;
    s[lo..hi]
  }

  /** `s.startswith(p)`. */
  predicate StartsWith(s: string, p: string) {
    |p| <= |s| && s[..|p|] == p
  }

  /** The characters for which Python's `str.isspace()` holds. */
  predicate IsSpace(c: char) {
    var n := c as int;
    n == 0x20 || 0x09 <= n <= 0x0D || 0x1C <= n <= 0x1F || n == 0x85 || n == 0xA0 ||
    n == 0x1680 || 0x2000 <= n <= 0x200A || n == 0x2028 || n == 0x2029 ||
    n == 0x202F || n == 0x205F || n == 0x3000
  }

  /** The whitespace `int()` skips around a number once its text is ASCII: space, and tab to carriage return. */
  predicate AsciiSpace(c: char) {
    c == ' ' || '\t' <= c <= '\r'
  }

  /** Which whitespace a strip removes: that of `str.strip`, or the narrower set `int()` skips. */
  datatype Blanks = StrBlanks | IntBlanks

  predicate IsBlank(b: Blanks, c: char) {
    match b
    case StrBlanks => IsSpace(c)
    case IntBlanks => AsciiSpace(c)
  }

  /** `s.rstrip()`: the longest prefix of `s` that does not end in whitespace. */
  function RStrip(b: Blanks, s: string): (r: string)
    ensures |r| <= |s| && r == s[..|r|]
    ensures r == [] || !IsBlank(b, r[|r| - 1])
    ensures forall k :: |r| <= k < |s| ==> IsBlank(b, s[k])
    decreases |s|
  {
    if |s| > 0 && IsBlank(b, s[|s| - 1]) then RStrip(b, s[..|s| - 1]) else s
  }

  /** `s.lstrip()`: the longest suffix of `s` that does not start with whitespace. */
  function LStrip(b: Blanks, s: string): (r: string)
    ensures |r| <= |s| && r == s[|s| - |r|..]
    ensures r == [] || !IsBlank(b, r[0])
    ensures forall k :: 0 <= k < |s| - |r| ==> IsBlank(b, s[k])
    decreases |s|
  {
    if |s| > 0 && IsBlank(b, s[0]) then LStrip(b, s[1..]) else s
  }

  /**
   * `s.strip()`: the part of `s` left when the whitespace at both ends is
   * removed; neither end of it is whitespace, and everything removed is.
   */
  function Strip(b: Blanks, s: string): (r: string)
    ensures r == [] || (!IsBlank(b, r[0]) && !IsBlank(b, r[|r| - 1]))
    ensures StripStart(b, s) + |r| <= |s| && r == s[StripStart(b, s)..StripStart(b, s) + |r|]
    ensures forall k :: 0 <= k < StripStart(b, s) ==> IsBlank(b, s[k])
    ensures forall k :: StripStart(b, s) + |r| <= k < |s| ==> IsBlank(b, s[k])
  {
    var l := LStrip(b, s);
    var r := RStrip(b, l);
    StripOfParts(b, s, l, r);
    r
  }

  /** Right-stripping what left-stripping leaves removes whitespace from both ends of `s`. */
  lemma StripOfParts(b: Blanks, s: string, l: string, r: string)
    requires |l| <= |s| && l == s[|s| - |l|..]
    requires |r| <= |l| && r == l[..|r|]
    requires forall k :: |r| <= k < |l| ==> IsBlank(b, l[k])
    ensures r == s[|s| - |l|..|s| - |l| + |r|]
    ensures forall k :: |s| - |l| + |r| <= k < |s| ==> IsBlank(b, s[k])
  {
    forall k | |s| - |l| + |r| <= k < |s| ensures IsBlank(b, s[k]) {
      assert s[k] == l[k - (|s| - |l|)];
    }
  }

  /** Where the stripped text starts in `s`. */
  function StripStart(b: Blanks, s: string): nat {
    |s| - |LStrip(b, s)|
  }

  lemma StripNoSpace(b: Blanks, s: string)
    requires s == [] || (!IsBlank(b, s[0]) && !IsBlank(b, s[|s| - 1]))
    ensures Strip(b, s) == s
  {
  }

  // ---------------------------------------------------------------------------
  // `int(s, 16)`.

  function HexDigit(c: char): Option<nat> {
    if '0' <= c <= '9' then Some(c as int - '0' as int)
    else if 'a' <= c <= 'f' then Some(c as int - 'a' as int + 10)
    else if 'A' <= c <= 'F' then Some(c as int - 'A' as int + 10)
    else None
  }

  predicate AllHex(ds: string) {
    forall k :: 0 <= k < |ds| ==> HexDigit(ds[k]).Some?
  }

  /** The value of a string of hex digits, most significant first. */
  function HexValue(ds: string): nat
    requires AllHex(ds)
  {
    if ds == [] then 0 else HexValue(ds[..|ds| - 1]) * 16 + HexDigit(ds[|ds| - 1]).value
  }

  /**
   * Python's digit grammar with underscores: hex digits, each underscore
   * between two digits, none leading, trailing or doubled.
   */
  predicate DigitGroup(ds: string) {
    |ds| > 0 && ds[0] != '_' && ds[|ds| - 1] != '_' &&
    (forall k :: 0 <= k < |ds| ==> ds[k] == '_' || HexDigit(ds[k]).Some?) &&
    (forall k :: 0 <= k < |ds| - 1 ==> !(ds[k] == '_' && ds[k + 1] == '_'))
  }

  /** The characters of `ds` other than underscores, in their order. */
  function RemoveUnderscores(ds: string): (r: string)
    ensures forall k :: 0 <= k < |r| ==> r[k] != '_'
    ensures (forall k :: 0 <= k < |ds| ==> ds[k] == '_' || HexDigit(ds[k]).Some?) ==> AllHex(r)
    ensures (forall k :: 0 <= k < |ds| ==> ds[k] != '_') ==> r == ds
  {
    if ds == [] then [] else (if ds[0] == '_' then [] else [ds[0]]) + RemoveUnderscores(ds[1..])
  }

  /** Removing underscores keeps every other character as often as it occurs. */
  lemma {:induction false} RemoveUnderscoresKeeps(ds: string)
    ensures multiset(RemoveUnderscores(ds)) == multiset(ds)['_' := 0]
  {
    if ds != [] {
      assert ds == [ds[0]] + ds[1..];
      RemoveUnderscoresKeeps(ds[1..]);
    }
  }

  /** Removing underscores works piecewise, so the kept characters stay in their order. */
  lemma {:induction false} RemoveUnderscoresAppend(a: string, b: string)
    ensures RemoveUnderscores(a + b) == RemoveUnderscores(a) + RemoveUnderscores(b)
    decreases |a|
  {
    if a == [] {
      assert a + b == b;
    } else {
      assert (a + b)[0] == a[0] && (a + b)[1..] == a[1..] + b;
      RemoveUnderscoresAppend(a[1..], b);
    }
  }

  /** Splits an optional sign off `t`: (negative?, rest). */
  function SplitSign(t: string): (bool, string) {
    if |t| > 0 && (t[0] == '-' || t[0] == '+') then (t[0] == '-', t[1..]) else (false, t)
  }

  /** Removes an optional "0x"/"0X" prefix, and one underscore right after it. */
  function SplitPrefix(b: string): string {
    if |b| >= 2 && b[0] == '0' && (b[1] == 'x' || b[1] == 'X') then
      var rest := b[2..];
      if |rest| > 0 && rest[0] == '_' then rest[1..] else rest
    else b
  }

  /**
   * The ASCII rewrite `int()` makes of its text first: characters below 127
   * are kept, any other `str.isspace()` character becomes a space, and any
   * other character makes `int()` raise (None). After the rewrite a
   * character is whitespace to `int()` exactly when it was whitespace to
   * `str.isspace()` and not one of the separators 0x1C to 0x1F.
   */
  function ToAscii(text: string): (r: Option<string>)
    ensures r.Some? <==> forall k :: 0 <= k < |text| ==> text[k] as int < 127 || IsSpace(text[k])
    ensures r.Some? ==> |r.value| == |text| && forall k :: 0 <= k < |text| ==>
      (AsciiSpace(r.value[k]) <==> IsSpace(text[k]) && !(0x1C <= text[k] as int <= 0x1F)) &&
      (!IsSpace(text[k]) ==> r.value[k] == text[k])
  {
    if forall k :: 0 <= k < |text| ==> text[k] as int < 127 || IsSpace(text[k]) then
      Some(seq(|text|, k requires 0 <= k < |text| => if text[k] as int < 127 then text[k] else ' '))
    else None
  }

  /** ASCII text comes through the rewrite unchanged. */
  lemma AsciiTextKept(s: string)
    requires forall k :: 0 <= k < |s| ==> s[k] as int < 127
    ensures ToAscii(s) == Some(s)
  {
    assert ToAscii(s).value == s;
  }

  /**
   * `int(text, 16)`: the ASCII rewrite, then the surrounding whitespace, an
   * optional sign, an optional 0x prefix and a digit group. None stands for
   * the ValueError Python raises.
   */
  function ParseInt16(text: string): Option<int> {
    match ToAscii(text)
    case None => None
    case Some(a) => ParseNumber(Strip(IntBlanks, a))
  }

  /** `int(t, 16)` for ASCII text without surrounding whitespace. */
  function ParseNumber(t: string): (r: Option<int>)
    ensures r.Some? <==> DigitGroup(SplitPrefix(SplitSign(t).1))
  {
    var ds := SplitPrefix(SplitSign(t).1);
    if DigitGroup(ds) then
      var v: int := HexValue(RemoveUnderscores(ds));
      Some(if SplitSign(t).0 then -v else v)
    else None
  }

  /**
   * A digit group in either case, with underscores, after an optional sign
   * and an optional prefix, reads as the value of its digits, negated for "-".
   */
  lemma {:induction false} ParseNumberValue(sign: string, prefix: string, ds: string)
    requires sign == "" || sign == "+" || sign == "-"
    requires prefix == "" || prefix == "0x" || prefix == "0X"
    requires DigitGroup(ds)
    ensures var v: int := HexValue(RemoveUnderscores(ds));
      ParseNumber(sign + (prefix + ds)) == Some(if sign == "-" then -v else v)
  {
    SplitPrefixOf(prefix, ds);
    SplitSignOf(sign, prefix + ds);
    ParseNumberOfParts(sign + (prefix + ds), sign == "-", ds);
  }

  /** `ParseNumber` reads the sign and the digit group that splitting `t` leaves. */
  lemma ParseNumberOfParts(t: string, neg: bool, ds: string)
    requires SplitSign(t).0 == neg && SplitPrefix(SplitSign(t).1) == ds
    requires DigitGroup(ds)
    ensures var v: int := HexValue(RemoveUnderscores(ds));
      ParseNumber(t) == Some(if neg then -v else v)
  {
  }

  lemma SplitSignOf(sign: string, body: string)
    requires sign == "" || sign == "+" || sign == "-"
    requires |body| > 0 && body[0] != '+' && body[0] != '-'
    ensures SplitSign(sign + body) == (sign == "-", body)
  {
    if sign != "" {
      assert (sign + body)[1..] == body;
    } else {
      assert sign + body == body;
    }
  }

  lemma SplitPrefixOf(prefix: string, ds: string)
    requires prefix == "" || prefix == "0x" || prefix == "0X"
    requires DigitGroup(ds)
    ensures |prefix + ds| > 0 && (prefix + ds)[0] != '+' && (prefix + ds)[0] != '-'
    ensures SplitPrefix(prefix + ds) == ds
  {
    assert HexDigit(ds[0]).Some?;
    if prefix == "" {
      assert prefix + ds == ds;
      if |ds| >= 2 {
        assert HexDigit(ds[1]).Some? || ds[1] == '_';
      }
    } else {
      assert (prefix + ds)[2..] == ds;
    }
  }

  /** Upper-case hex digits of `n` without leading zeros, as Python's "{:X}" writes them. */
  function FormatHex(n: nat): (r: string)
    ensures |r| > 0 && AllHex(r)
    ensures forall k :: 0 <= k < |r| ==> '0' <= r[k] <= '9' || 'A' <= r[k] <= 'F'
    decreases n
  {
    var d := n % 16;
    var c := if d < 10 then ('0' as int + d) as char else ('A' as int + d - 10) as char;
    if n < 16 then [c] else FormatHex(n / 16) + [c]
  }

  lemma {:induction false} HexValueOfFormat(n: nat)
    ensures HexValue(FormatHex(n)) == n
    decreases n
  {
    var r := FormatHex(n);
    if n >= 16 {
      HexValueOfFormat(n / 16);
      assert r[..|r| - 1] == FormatHex(n / 16);
    }
  }

  /**
   * Reading back what "0x{:X}" writes: `int(s, 16)` returns the number, with or
   * without the prefix.
   */
  lemma ParseFormatRoundTrip(n: nat)
    ensures ParseInt16(FormatHex(n)) == Some(n)
    ensures ParseInt16("0x" + FormatHex(n)) == Some(n)
  {
    HexValueOfFormat(n);
    ParseUpperDigits(FormatHex(n));
  }

  /** Digits as "{:X}" writes them: decimal digits and upper-case letters A to F. */
  predicate UpperHex(h: string) {
    forall k :: 0 <= k < |h| ==> '0' <= h[k] <= '9' || 'A' <= h[k] <= 'F'
  }

  /** Upper-case hex digits, with or without the prefix, parse to their value. */
  lemma ParseUpperDigits(h: string)
    requires |h| > 0 && AllHex(h)
    requires UpperHex(h)
    ensures ParseInt16(h) == Some(HexValue(h))
    ensures ParseInt16("0x" + h) == Some(HexValue(h))
  {
    ParsePlainDigits(h);
    ParsePrefixedDigits(h);
  }

  /** The same digits behind a "0x" prefix parse to the same value. */
  lemma ParsePrefixedDigits(h: string)
    requires |h| > 0 && AllHex(h)
    requires UpperHex(h)
    ensures ParseInt16("0x" + h) == Some(HexValue(h))
  {
    StripPrefixedDigits(h);
    ParseNumberPrefixed(h);
  }

  /** "0x" and upper-case digits are ASCII with no whitespace at either end. */
  lemma StripPrefixedDigits(h: string)
    requires |h| > 0
    requires UpperHex(h)
    ensures ToAscii("0x" + h) == Some("0x" + h)
    ensures Strip(IntBlanks, "0x" + h) == "0x" + h
  {
    var p := "0x" + h;
    assert forall k :: 2 <= k < |p| ==> p[k] == h[k - 2];
    AsciiTextKept(p);
    assert p[|p| - 1] == h[|h| - 1];
    StripNoSpace(IntBlanks, p);
  }

  lemma ParseNumberPrefixed(h: string)
    requires |h| > 0 && AllHex(h)
    requires UpperHex(h)
    ensures ParseNumber("0x" + h) == Some(HexValue(h))
  {
    var p := "0x" + h;
    assert SplitSign(p) == (false, p);
    assert SplitPrefix(p) == h by {
      assert p[2..] == h;
      assert h[0] != '_';
    }
    HexIsDigitGroup(h);
  }

  /** A non-empty string of hex digits is a digit group and has no underscores. */
  lemma HexIsDigitGroup(h: string)
    requires |h| > 0 && AllHex(h)
    ensures DigitGroup(h) && RemoveUnderscores(h) == h
  {
    assert forall k :: 0 <= k < |h| ==> h[k] != '_' by {
      forall k | 0 <= k < |h| ensures h[k] != '_' { assert HexDigit(h[k]).Some?; }
    }
  }

  /** Plain upper-case hex digits parse to their value. */
  lemma ParsePlainDigits(h: string)
    requires |h| > 0 && AllHex(h)
    requires UpperHex(h)
    ensures ParseInt16(h) == Some(HexValue(h))
  {
    AsciiTextKept(h);
    StripNoSpace(IntBlanks, h);
    ParseNumberPlain(h);
  }

  lemma ParseNumberPlain(h: string)
    requires |h| > 0 && AllHex(h)
    requires UpperHex(h)
    ensures ParseNumber(h) == Some(HexValue(h))
  {
    assert SplitSign(h) == (false, h);
    assert SplitPrefix(h) == h by {
      if |h| >= 2 { assert h[1] != 'x' && h[1] != 'X'; }
    }
    HexIsDigitGroup(h);
  }

  // ---------------------------------------------------------------------------
  // The field table: which tags exist, how wide their fields are and where
  // their value sits.

  datatype Tag = TagRD | TagRA | TagRB | TagXER | TagCR | TagImm | TagUnknown

  /** The first column of the field row. */
  const FieldStart: nat := 12

  /** Length of every value token. */
  const TokenLength: nat := 10

  /** The tag at the cursor: the first prefix of `line[pos:pos+4]` that matches, in the script's order. */
  function TagAt(line: string, pos: nat): Tag {
    var id := Slice(line, pos, pos + 4);
    if StartsWith(id, "rD") then TagRD
    else if StartsWith(id, "rA") then TagRA
    else if StartsWith(id, "rB") then TagRB
    else if StartsWith(id, "XER:") then TagXER
    else if StartsWith(id, "CR:") then TagCR
    else if StartsWith(id, "imm") then TagImm
    else TagUnknown
  }

  /** Field width of a known tag: how far the cursor advances past it. */
  function Width(t: Tag): (w: nat)
    requires t != TagUnknown
    ensures w >= 16
  {
    match t
    case TagRD => 16 case TagRA => 16 case TagRB => 16
    case TagXER => 18 case TagCR => 17 case TagImm => 17
  }

  /** Offset of the value token within the field of a known tag. */
  function ValueOffset(t: Tag): nat
    requires t != TagUnknown
  {
    match t
    case TagRD => 3 case TagRA => 3 case TagRB => 3
    case TagXER => 5 case TagCR => 4 case TagImm => 4
  }

  /** The operand name written for a tag (the immediate is not written). */
  function TagName(t: Tag): string
    requires t != TagUnknown && t != TagImm
  {
    match t
    case TagRD => "rD" case TagRA => "rA" case TagRB => "rB"
    case TagXER => "XER" case TagCR => "CR"
  }

  /** The value token of the field at `pos`. */
  function Token(line: string, pos: nat, t: Tag): (v: string)
    requires t != TagUnknown
    ensures |v| <= TokenLength
    ensures pos + ValueOffset(t) + TokenLength <= |line| ==> |v| == TokenLength
  {
    Slice(line, pos + ValueOffset(t), pos + ValueOffset(t) + TokenLength)
  }

  /** One step of the cursor: the position of a field and its known tag. */
  datatype Step = Step(pos: nat, tag: Tag)

  /**
   * Where the walk over a row ended: at the end of the line, or at an
   * unrecognised tag, whose four characters the script writes after
   * "Unknown reg ID" before it leaves the row.
   */
  datatype Stop = EndOfLine | UnknownTag(pos: nat, tag: string)

  datatype Walk = Walk(steps: seq<Step>, stop: Stop)

  /**
   * The walk of the cursor from `pos`: every field with a known tag, in
   * order, until the cursor passes the end of the line or meets an unknown tag.
   */
  function WalkFrom(line: string, pos: nat): (w: Walk)
    decreases |line| - pos
  {
    if pos >= |line| then Walk([], EndOfLine)
    else
      var t := TagAt(line, pos);
      if t == TagUnknown then Walk([], UnknownTag(pos, Slice(line, pos, pos + 4)))
      else
        var rest := WalkFrom(line, pos + Width(t));
        Walk([Step(pos, t)] + rest.steps, rest.stop)
  }

  /** `st` is a step of a known tag inside the line, at or after column `from`. */
  predicate KnownStep(line: string, from: nat, st: Step) {
    from <= st.pos < |line| && st.tag == TagAt(line, st.pos) && st.tag != TagUnknown
  }

  /** Every step of a walk is a known tag inside the line, at or after `pos`. */
  lemma {:induction false} WalkSteps(line: string, pos: nat)
    ensures forall k :: 0 <= k < |WalkFrom(line, pos).steps| ==> KnownStep(line, pos, WalkFrom(line, pos).steps[k])
    decreases |line| - pos
  {
    if pos < |line| {
      var t := TagAt(line, pos);
      if t != TagUnknown {
        var q := pos + Width(t);
        WalkSteps(line, q);
        var w := WalkFrom(line, pos);
        var rest := WalkFrom(line, q);
        assert w.steps == [Step(pos, t)] + rest.steps;
        forall k | 0 <= k < |w.steps|
          ensures KnownStep(line, pos, w.steps[k])
        {
          if k > 0 {
            assert w.steps[k] == rest.steps[k - 1];
            assert KnownStep(line, q, rest.steps[k - 1]);
          }
        }
      }
    }
  }

  /** A walk starts at `pos` and each step lies one field width past the previous one. */
  lemma {:induction false} WalkStride(line: string, pos: nat)
    ensures var w := WalkFrom(line, pos);
      (|w.steps| > 0 ==> w.steps[0].pos == pos) &&
      forall k :: 0 <= k < |w.steps| - 1 ==>
        w.steps[k].tag != TagUnknown && w.steps[k + 1].pos == w.steps[k].pos + Width(w.steps[k].tag)
    decreases |line| - pos
  {
    if pos < |line| {
      var t := TagAt(line, pos);
      if t != TagUnknown {
        WalkStride(line, pos + Width(t));
        var w := WalkFrom(line, pos);
        var rest := WalkFrom(line, pos + Width(t));
        assert w.steps == [Step(pos, t)] + rest.steps;
        forall k | 0 <= k < |w.steps| - 1
          ensures w.steps[k].tag != TagUnknown && w.steps[k + 1].pos == w.steps[k].pos + Width(w.steps[k].tag)
        {
          if k > 0 { assert w.steps[k] == rest.steps[k - 1]; }
        }
      }
    }
  }

  /**
   * An unknown-tag stop lies inside the line, at or after `pos`, where the
   * table knows no tag, and carries the four characters read there.
   */
  lemma {:induction false} WalkStopAt(line: string, pos: nat)
    ensures var st := WalkFrom(line, pos).stop;
      st.UnknownTag? ==> (
        pos <= st.pos < |line| && TagAt(line, st.pos) == TagUnknown &&
        st.tag == Slice(line, st.pos, st.pos + 4))
    decreases |line| - pos
  {
    if pos < |line| {
      var t := TagAt(line, pos);
      if t == TagUnknown {
        WalkStopHere(line, pos);
      } else {
        var next := pos + Width(t);
        WalkStopAt(line, next);
        WalkStopRest(line, pos);
        assert WalkFrom(line, pos).stop == WalkFrom(line, next).stop;
      }
    }
  }

  /** At an unknown tag the walk stops, recording the four characters it found. */
  lemma WalkStopHere(line: string, pos: nat)
    requires pos < |line| && TagAt(line, pos) == TagUnknown
    ensures WalkFrom(line, pos).stop == UnknownTag(pos, Slice(line, pos, pos + 4))
  {
  }

  /** Past a known tag, the walk stops where the walk from the next field stops. */
  lemma WalkStopRest(line: string, pos: nat)
    requires pos < |line| && TagAt(line, pos) != TagUnknown
    ensures WalkFrom(line, pos).stop == WalkFrom(line, pos + Width(TagAt(line, pos))).stop
  {
  }

  /**
   * An unknown-tag stop lies one field width past the last step of the walk,
   * or at `pos` when there is none.
   */
  lemma {:induction false} WalkStopAfter(line: string, pos: nat)
    ensures var w := WalkFrom(line, pos);
      w.stop.UnknownTag? ==> (
        (|w.steps| == 0 ==> w.stop.pos == pos) &&
        (|w.steps| > 0 ==> (w.steps[|w.steps| - 1].tag != TagUnknown &&
          w.stop.pos == w.steps[|w.steps| - 1].pos + Width(w.steps[|w.steps| - 1].tag))))
    decreases |line| - pos
  {
    if pos < |line| {
      var t := TagAt(line, pos);
      if t != TagUnknown {
        WalkStopAfter(line, pos + Width(t));
        var w := WalkFrom(line, pos);
        var rest := WalkFrom(line, pos + Width(t));
        assert w.steps == [Step(pos, t)] + rest.steps && w.stop == rest.stop;
        if |rest.steps| > 0 {
          assert w.steps[|w.steps| - 1] == rest.steps[|rest.steps| - 1];
        }
      }
    }
  }

  /** Every step of the walk from `pos` has a known tag. */
  predicate WalkShapeOk(line: string, pos: nat) {
    forall k :: 0 <= k < |WalkFrom(line, pos).steps| ==> WalkFrom(line, pos).steps[k].tag != TagUnknown
  }

  /** The cursor strictly increases along the walk, by at least 16 columns per field. */
  lemma {:induction false} WalkIncreasing(line: string, pos: nat, i: nat, j: nat)
    requires i < j < |WalkFrom(line, pos).steps|
    ensures WalkFrom(line, pos).steps[i].pos + 16 * (j - i) <= WalkFrom(line, pos).steps[j].pos
    decreases j - i
  {
    WalkStride(line, pos);
    if j > i + 1 {
      WalkIncreasing(line, pos, i + 1, j);
    }
  }

  // ---------------------------------------------------------------------------
  // find_imm.

  /** What `find_imm` does with a line. */
  datatype ImmScan =
    | Found(value: int)       // returned the value of the first immediate field
    | NotFound                // the cursor passed the end: returned 0
    | BadHex(token: string)   // int(token, 16) raised ValueError
    | Stuck(pos: nat)         // unknown tag at pos: the loop repeats forever

  /** What `find_imm` returns at an immediate field: its token read as hex, or the ValueError. */
  function ImmAt(line: string, pos: nat): ImmScan {
    var tok := Token(line, pos, TagImm);
    match ParseInt16(tok)
    case Some(v) => Found(v)
    case None => BadHex(tok)
  }

  /** The loop of `find_imm` from cursor `pos`, read through the field table. */
  function FindImmFrom(line: string, pos: nat): ImmScan
    decreases |line| - pos
  {
    if pos >= |line| then NotFound
    else
      var t := TagAt(line, pos);
      if t == TagUnknown then Stuck(pos)
      else if t == TagImm then ImmAt(line, pos)
      else FindImmFrom(line, pos + Width(t))
  }

  /** A register, XER or CR field is skipped by its width. */
  lemma FindImmSkip(line: string, pos: nat)
    requires pos < |line| && TagAt(line, pos) != TagUnknown && TagAt(line, pos) != TagImm
    ensures FindImmFrom(line, pos) == FindImmFrom(line, pos + Width(TagAt(line, pos)))
  {
  }

  /** find_imm, as the script writes it: a cursor loop from column 12. */
  method FindImm(line: string) returns (r: ImmScan)
    ensures r == FindImmFrom(line, FieldStart)
  {
    var pos: nat := 12;
    while pos < |line|
      invariant FindImmFrom(line, pos) == FindImmFrom(line, FieldStart)
      decreases |line| - pos
    {
      var regId := Slice(line, pos, pos + 4);
      ghost var t := TagAt(line, pos);
      if StartsWith(regId, "rD") || StartsWith(regId, "rA") || StartsWith(regId, "rB") {
        assert Width(t) == 16;
        FindImmSkip(line, pos);
        pos := pos + 16;
      } else if StartsWith(regId, "XER:") {
        assert t == TagXER;
        FindImmSkip(line, pos);
        pos := pos + 18;
      } else if StartsWith(regId, "CR:") {
        assert t == TagCR;
        FindImmSkip(line, pos);
        pos := pos + 17;
      } else if StartsWith(regId, "imm") {
        assert t == TagImm;
        var tok := Slice(line, pos + 4, pos + 14);
        assert tok == Token(line, pos, TagImm);
        var v := ParseInt16(tok);
        if v.Some? {
          return Found(v.value);
        }
        return BadHex(tok);
      } else {
        // no branch advances the cursor: the script's loop never ends here
        assert t == TagUnknown;
        return Stuck(pos);
      }
    }
    return NotFound;
  }

  /** The immediate the script goes on with, if it goes on: the found value, or 0. */
  function ImmValue(s: ImmScan): Option<int> {
    match s
    case Found(v) => Some(v)
    case NotFound => Some(0)
    case BadHex(_) => None
    case Stuck(_) => None
  }

  /** The index of the first immediate step of a walk, if any. */
  function FirstImm(steps: seq<Step>): (i: Option<nat>)
    ensures i.Some? ==> i.value < |steps| && steps[i.value].tag == TagImm
    ensures i.Some? ==> forall k :: 0 <= k < i.value ==> steps[k].tag != TagImm
    ensures i.None? ==> forall k :: 0 <= k < |steps| ==> steps[k].tag != TagImm
  {
    if steps == [] then None
    else if steps[0].tag == TagImm then Some(0)
    else match FirstImm(steps[1..])
      case Some(j) => Some(j + 1)
      case None => None
  }

  /**
   * What find_imm makes of a walk: the value of its first immediate field;
   * without one, 0 if the walk reached the end of the line and stuck at the
   * walk's unknown tag otherwise.
   */
  function WalkImm(line: string, w: Walk): ImmScan {
    match FirstImm(w.steps)
    case Some(i) => ImmAt(line, w.steps[i].pos)
    case None =>
      (match w.stop
       case EndOfLine => NotFound
       case UnknownTag(p, _) => Stuck(p))
  }

  /** A leading step that is not an immediate does not change what find_imm makes of a walk. */
  lemma WalkImmSkip(line: string, st: Step, rest: Walk)
    requires st.tag != TagImm
    ensures WalkImm(line, Walk([st] + rest.steps, rest.stop)) == WalkImm(line, rest)
  {
    var steps := [st] + rest.steps;
    FirstImmSkip(st, rest.steps);
    if FirstImm(rest.steps).Some? {
      var j := FirstImm(rest.steps).value;
      assert steps[j + 1] == rest.steps[j];
    }
  }

  /** A leading step that is not an immediate shifts the index of the first immediate by one. */
  lemma FirstImmSkip(st: Step, steps: seq<Step>)
    requires st.tag != TagImm
    ensures FirstImm([st] + steps) == if FirstImm(steps).Some? then Some(FirstImm(steps).value + 1) else None
  {
    assert ([st] + steps)[1..] == steps;
  }

  /** find_imm follows the same walk as the field scan. */
  lemma {:induction false} FindImmFollowsWalk(line: string, pos: nat)
    ensures FindImmFrom(line, pos) == WalkImm(line, WalkFrom(line, pos))
    decreases |line| - pos
  {
    if pos < |line| {
      var t := TagAt(line, pos);
      if t != TagUnknown {
        if t == TagImm {
          FindImmAtImmediate(line, pos);
        } else {
          var rest := WalkFrom(line, pos + Width(t));
          assert WalkFrom(line, pos) == Walk([Step(pos, t)] + rest.steps, rest.stop);
          FindImmFollowsWalk(line, pos + Width(t));
          WalkImmSkip(line, Step(pos, t), rest);
        }
      }
    }
  }

  /** At an immediate field both find_imm and the walk read that field's token. */
  lemma FindImmAtImmediate(line: string, pos: nat)
    requires pos < |line| && TagAt(line, pos) == TagImm
    ensures FindImmFrom(line, pos) == ImmAt(line, pos) == WalkImm(line, WalkFrom(line, pos))
  {
    assert WalkFrom(line, pos).steps[0] == Step(pos, TagImm);
  }

  /** A line whose walk meets an unknown tag before any immediate makes find_imm loop forever. */
  lemma FindImmStuckIff(line: string)
    ensures FindImmFrom(line, FieldStart).Stuck? <==>
      FirstImm(WalkFrom(line, FieldStart).steps).None? && WalkFrom(line, FieldStart).stop.UnknownTag?
  {
    FindImmFollowsWalk(line, FieldStart);
  }

  // ---------------------------------------------------------------------------
  // The field scan.

  datatype Field = Field(name: string, value: string)

  datatype Scan = Scan(fields: seq<Field>, stop: Stop)

  /** The operand fields of the steps of a walk: every step but the immediate ones. */
  function FieldsOf(line: string, steps: seq<Step>): (fs: seq<Field>)
    requires forall k :: 0 <= k < |steps| ==> steps[k].tag != TagUnknown
    ensures |fs| <= |steps|
  {
    if steps == [] then []
    else
      var t := steps[0].tag;
      (if t == TagImm then [] else [Field(TagName(t), Token(line, steps[0].pos, t))]) +
      FieldsOf(line, steps[1..])
  }

  /** The field scan of the script from cursor `pos`, read through the field table. */
  function ScanFrom(line: string, pos: nat): (s: Scan)
    ensures forall k :: 0 <= k < |s.fields| ==>
      s.fields[k].name in {"rD", "rA", "rB", "XER", "CR"} && |s.fields[k].value| <= TokenLength
    decreases |line| - pos
  {
    if pos >= |line| then Scan([], EndOfLine)
    else
      var t := TagAt(line, pos);
      if t == TagUnknown then Scan([], UnknownTag(pos, Slice(line, pos, pos + 4)))
      else
        var rest := ScanFrom(line, pos + Width(t));
        if t == TagImm then rest
        else Scan([Field(TagName(t), Token(line, pos, t))] + rest.fields, rest.stop)
  }

  /**
   * The scan writes, in walk order, one field per step that is not an
   * immediate, and stops where the walk stops.
   */
  lemma {:induction false} ScanFollowsWalk(line: string, pos: nat)
    ensures WalkShapeOk(line, pos)
    ensures ScanFrom(line, pos) == Scan(FieldsOf(line, WalkFrom(line, pos).steps), WalkFrom(line, pos).stop)
    decreases |line| - pos
  {
    WalkSteps(line, pos);
    if pos < |line| {
      var t := TagAt(line, pos);
      if t != TagUnknown {
        ScanFollowsWalk(line, pos + Width(t));
        var w := WalkFrom(line, pos);
        assert w.steps[1..] == WalkFrom(line, pos + Width(t)).steps;
      }
    }
  }

  /** One turn of the scan loop at a known tag: what it appends, and that the rest of the scan is unchanged. */
  lemma ScanAdvance(line: string, pos: nat, acc: seq<Field>)
    requires pos < |line| && TagAt(line, pos) != TagUnknown
    ensures var t := TagAt(line, pos);
      var rest := ScanFrom(line, pos + Width(t));
      (if t == TagImm then acc else acc + [Field(TagName(t), Token(line, pos, t))]) + rest.fields ==
        acc + ScanFrom(line, pos).fields &&
      rest.stop == ScanFrom(line, pos).stop
  {
    var t := TagAt(line, pos);
    if t != TagImm {
      var f := Field(TagName(t), Token(line, pos, t));
      var rest := ScanFrom(line, pos + Width(t));
      assert ScanFrom(line, pos).fields == [f] + rest.fields;
      assert acc + [f] + rest.fields == acc + ([f] + rest.fields);
    }
  }

  /** At an unknown tag the scan ends there, with no further field. */
  lemma ScanStopHere(line: string, pos: nat, acc: seq<Field>)
    requires pos < |line| && TagAt(line, pos) == TagUnknown
    ensures ScanFrom(line, pos) == Scan([], UnknownTag(pos, Slice(line, pos, pos + 4)))
    ensures acc + ScanFrom(line, pos).fields == acc
  {
    assert acc + [] == acc;
  }

  /** The field-scanning loop of the script, from column 12. */
  method ScanFields(line: string) returns (fields: seq<Field>, stop: Stop)
    ensures Scan(fields, stop) == ScanFrom(line, FieldStart)
  {
    fields := [];
    var pos: nat := 12;
    while pos < |line|
      invariant fields + ScanFrom(line, pos).fields == ScanFrom(line, FieldStart).fields
      invariant ScanFrom(line, pos).stop == ScanFrom(line, FieldStart).stop
      decreases |line| - pos
    {
      var regId := Slice(line, pos, pos + 4);
      ghost var t := TagAt(line, pos);
      if StartsWith(regId, "rD") {
        assert t == TagRD;
        ScanAdvance(line, pos, fields);
        fields := fields + [Field("rD", Slice(line, pos + 3, pos + 13))];
        pos := pos + 16;
      } else if StartsWith(regId, "rA") {
        assert t == TagRA;
        ScanAdvance(line, pos, fields);
        fields := fields + [Field("rA", Slice(line, pos + 3, pos + 13))];
        pos := pos + 16;
      } else if StartsWith(regId, "rB") {
        assert t == TagRB;
        ScanAdvance(line, pos, fields);
        fields := fields + [Field("rB", Slice(line, pos + 3, pos + 13))];
        pos := pos + 16;
      } else if StartsWith(regId, "XER:") {
        assert t == TagXER;
        ScanAdvance(line, pos, fields);
        fields := fields + [Field("XER", Slice(line, pos + 5, pos + 15))];
        pos := pos + 18;
      } else if StartsWith(regId, "CR:") {
        assert t == TagCR;
        ScanAdvance(line, pos, fields);
        fields := fields + [Field("CR", Slice(line, pos + 4, pos + 14))];
        pos := pos + 17;
      } else if StartsWith(regId, "imm") {
        assert t == TagImm;
        ScanAdvance(line, pos, fields);
        pos := pos + 17;  // the immediate is not written
      } else {
        assert t == TagUnknown;
        stop := UnknownTag(pos, regId);
        ScanStopHere(line, pos, fields);
        return;
      }
    }
    stop := EndOfLine;
    assert fields + [] == fields;
  }

  /** find_imm is stuck exactly where the scan stops at an unknown tag, when no immediate comes first. */
  lemma StuckWhereScanStops(line: string)
    requires FindImmFrom(line, FieldStart).Stuck?
    ensures ScanFrom(line, FieldStart).stop == UnknownTag(
      FindImmFrom(line, FieldStart).pos,
      Slice(line, FindImmFrom(line, FieldStart).pos, FindImmFrom(line, FieldStart).pos + 4))
  {
    FindImmFollowsWalk(line, FieldStart);
    ScanFollowsWalk(line, FieldStart);
    WalkStopAt(line, FieldStart);
  }

  // ---------------------------------------------------------------------------
  // One line of the log.

  /** The mnemonic of a stripped line: `line[0:8].rstrip()`. */
  function MnemonicOf(line: string): (m: string)
    ensures |m| <= 8 && |m| <= |line| && m == line[..|m|]
    ensures m == [] || !IsSpace(m[|m| - 1])
    ensures forall k :: |m| <= k < (if |line| < 8 then |line| else 8) ==> IsSpace(line[k])
  {
    var head := Slice(line, 0, 8);
    assert head == line[..|head|];
    RStrip(StrBlanks, head)
  }
}
