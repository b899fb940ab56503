/** JSON string escaping and unescaping of src/cli.c and the second escaper of src/ctl_cli.c.
    C strings are byte sequences without NUL; the terminator is written out where it matters. */
module JsonEscape {
  import opened LittleEndian
  import Utf8
  import opened Wrappers

  type Bytes = seq<byte>

  const QUOTE: byte := 34
  const BACKSLASH: byte := 92
  const SLASH: byte := 47
  const NEWLINE: byte := 10
  const RETURN: byte := 13
  const TAB: byte := 9
  const LOWER_N: byte := 110
  const LOWER_R: byte := 114
  const LOWER_T: byte := 116
  const LOWER_U: byte := 117
  const DIGIT_0: byte := 48
  const LOWER_A: byte := 97
  const UPPER_A: byte := 65

  predicate NulFree(s: Bytes) {
    0 !in s
  }

  // ---------------------------------------------------------------- escaping

  function HexDigit(v: nat): byte
    requires v < 16
  {
    if v < 10 then DIGIT_0 + v else LOWER_A + v - 10
  }

  function EscapeByte(c: byte): (e: Bytes)
    ensures 1 <= |e| <= 6
  {
    if c == BACKSLASH then [BACKSLASH, BACKSLASH]
    else if c == QUOTE then [BACKSLASH, QUOTE]
    else if c == NEWLINE then [BACKSLASH, LOWER_N]
    else if c == RETURN then [BACKSLASH, LOWER_R]
    else if c == TAB then [BACKSLASH, LOWER_T]
    else if c < 0x20 then [BACKSLASH, LOWER_U, DIGIT_0, DIGIT_0, HexDigit(c / 16), HexDigit(c % 16)]
    else [c]
  }

  function Body(s: Bytes): (e: Bytes)
    ensures |s| <= |e| <= 6 * |s|
  {
    if s == [] then [] else Body(s[..|s| - 1]) + EscapeByte(s[|s| - 1])
  }

  /** The JSON string literal of `s`. */
  function Escape(s: Bytes): Bytes {
    [QUOTE] + Body(s) + [QUOTE]
  }

  lemma BodySnoc(s: Bytes, i: nat)
    requires i < |s|
    ensures Body(s[..i + 1]) == Body(s[..i]) + EscapeByte(s[i])
  {
    assert s[..i + 1][..i] == s[..i];
  }

  predicate Printable(s: Bytes) {
    forall i :: 0 <= i < |s| ==> s[i] >= 0x20
  }

  lemma {:induction false} BodyPrintable(s: Bytes)
    ensures Printable(Body(s))
  {
    if s != [] {
      BodyPrintable(s[..|s| - 1]);
      assert Printable(EscapeByte(s[|s| - 1]));
    }
  }

  /** A literal holds no control character, in particular no raw newline and no NUL. */
  lemma NoControlCharacters(s: Bytes)
    ensures Printable(Escape(s)) && NulFree(Escape(s)) && NEWLINE !in Escape(s)
  {
    BodyPrintable(s);
  }

  /** The literal up to, and without, the character at `i`. */
  function Prefix(s: Bytes, i: nat): (e: Bytes)
    requires i <= |s|
    ensures 1 <= |e| <= 6 * i + 1
  {
    [QUOTE] + Body(s[..i])
  }

  lemma PrefixSnoc(s: Bytes, i: nat)
    requires i < |s|
    ensures Prefix(s, i + 1) == Prefix(s, i) + EscapeByte(s[i])
  {
    BodySnoc(s, i);
  }

  lemma PrefixAll(s: Bytes)
    ensures Escape(s) == Prefix(s, |s|) + [QUOTE]
  {
    assert s[..|s|] == s;
  }

  lemma Appended(b: Bytes, p: nat, x: Bytes)
    requires At(b, p, x)
    ensures b[..p + |x|] == b[..p] + x
  {
  }

  /** The first `i` characters are escaped, up to offset `p` of the output. */
  ghost predicate Begun(out: array<byte>, s: Bytes, i: nat, p: nat)
    reads out
  {
    i <= |s| && p == |Prefix(s, i)| <= out.Length && out[..p] == Prefix(s, i) && out.Length == 6 * |s| + 3
  }

  lemma BegunStart(out: array<byte>, s: Bytes)
    requires out.Length == 6 * |s| + 3 && out[0] == QUOTE
    ensures Begun(out, s, 0, 1)
  {
    assert s[..0] == [] && Prefix(s, 0) == [QUOTE];
  }

  lemma BegunStep(out: array<byte>, s: Bytes, i: nat, p: nat, before: Bytes)
    requires i < |s| && |before| == out.Length == 6 * |s| + 3 && p == |Prefix(s, i)| <= out.Length && before[..p] == Prefix(s, i)
    requires At(out[..], p, EscapeByte(s[i])) && forall k :: 0 <= k < p ==> out[k] == before[k]
    ensures Begun(out, s, i + 1, p + |EscapeByte(s[i])|)
  {
    assert out[..p] == before[..p];
    Appended(out[..], p, EscapeByte(s[i]));
    PrefixSnoc(s, i);
  }

  /** The closing quote and the terminator. */
  method CloseLiteral(out: array<byte>, s: Bytes, p: nat)
    requires Begun(out, s, |s|, p)
    modifies out
    ensures out[..|Escape(s)| + 1] == Escape(s) + [0]
  {
    PrefixAll(s);
    out[p], out[p + 1] := QUOTE, 0;
  }

  /** One turn of the loop in src/cli.c. The formatted control character puts a NUL behind
      itself, which the next byte overwrites. */
  method PutCli(out: array<byte>, p: nat, c: byte) returns (q: nat)
    requires p + 7 <= out.Length
    modifies out
    ensures q == p + |EscapeByte(c)| && At(out[..], p, EscapeByte(c))
    ensures forall k :: 0 <= k < p ==> out[k] == old(out[k])
  {
    if c == BACKSLASH || c == QUOTE {
      Copy(out, p, [BACKSLASH, c]);
      q := p + 2;
    } else if c == NEWLINE || c == RETURN || c == TAB {
      Copy(out, p, [BACKSLASH, if c == NEWLINE then LOWER_N else if c == RETURN then LOWER_R else LOWER_T]);
      q := p + 2;
    } else if c < 0x20 {
      Copy(out, p, [BACKSLASH, LOWER_U, DIGIT_0, DIGIT_0, HexDigit(c / 16), HexDigit(c % 16), 0]);
      assert EscapeByte(c) + [0] == [BACKSLASH, LOWER_U, DIGIT_0, DIGIT_0, HexDigit(c / 16), HexDigit(c % 16), 0];
      AtConcat(out[..], p, EscapeByte(c), [0]);
      q := p + 6;
    } else {
      out[p] := c;
      q := p + 1;
    }
  }

  /** `json_escape` of src/cli.c: a cursor into an allocation of 6n+3 bytes. */
  method EscapeCli(s: Bytes) returns (out: array<byte>)
    requires NulFree(s)
    ensures fresh(out) && out.Length == 6 * |s| + 3
    ensures out[..|Escape(s)| + 1] == Escape(s) + [0]
  {
    out := new byte[6 * |s| + 3](_ => 0);
    out[0] := QUOTE;
    BegunStart(out, s);
    var p: nat, i: nat := 1, 0;
    while i < |s|
      invariant Begun(out, s, i, p)
    {
      label Turn:
      var next := PutCli(out, p, s[i]);
      BegunStep(out, s, i, p, old@Turn(out[..]));
      p, i := next, i + 1;
    }
    CloseLiteral(out, s, p);
  }

  const HEX: Bytes := [48, 49, 50, 51, 52, 53, 54, 55, 56, 57, 97, 98, 99, 100, 101, 102]

  lemma HexTable(v: nat)
    requires v < 16
    ensures |HEX| == 16 && HEX[v] == HexDigit(v)
  {
  }

  /** One turn of the loop in src/ctl_cli.c, with its table of hex digits. */
  method PutCtl(out: array<byte>, o: nat, c: byte) returns (q: nat)
    requires o + 6 <= out.Length
    modifies out
    ensures q == o + |EscapeByte(c)| && At(out[..], o, EscapeByte(c))
    ensures forall k :: 0 <= k < o ==> out[k] == old(out[k])
  {
    var e := [c];
    if c == QUOTE || c == BACKSLASH {
      e := [BACKSLASH, c];
    } else if c == NEWLINE {
      e := [BACKSLASH, LOWER_N];
    } else if c == RETURN {
      e := [BACKSLASH, LOWER_R];
    } else if c == TAB {
      e := [BACKSLASH, LOWER_T];
    } else if c < 0x20 {
      HexTable(c / 16);
      HexTable(c % 16);
      e := [BACKSLASH, LOWER_U, DIGIT_0, DIGIT_0, HEX[c / 16], HEX[c % 16]];
    }
    Copy(out, o, e);
    q := o + |e|;
  }

  /** `json_escape` of src/ctl_cli.c writes the same bytes. */
  method EscapeCtl(s: Bytes) returns (out: array<byte>)
    requires NulFree(s)
    ensures fresh(out) && out.Length == 6 * |s| + 3
    ensures out[..|Escape(s)| + 1] == Escape(s) + [0]
  {
    out := new byte[6 * |s| + 3](_ => 0);
    out[0] := QUOTE;
    BegunStart(out, s);
    var o: nat, i: nat := 1, 0;
    while i < |s|
      invariant Begun(out, s, i, o)
    {
      label Turn:
      var next := PutCtl(out, o, s[i]);
      BegunStep(out, s, i, o, old@Turn(out[..]));
      o, i := next, i + 1;
    }
    CloseLiteral(out, s, o);
  }

  // ---------------------------------------------------------------- unescaping

  /** The character at `i` of the C string `s`; its terminator at the end. Nothing beyond the
      terminator can be read. */
  function CharAt(s: Bytes, i: nat): byte
    requires i <= |s|
  {
    if i < |s| then s[i] else 0
  }

  function HexValue(c: byte): Option<nat> {
    if DIGIT_0 <= c <= DIGIT_0 + 9 then Some(c - DIGIT_0)
    else if LOWER_A <= c <= LOWER_A + 5 then Some(c - LOWER_A + 10)
    else if UPPER_A <= c <= UPPER_A + 5 then Some(c - UPPER_A + 10)
    else None
  }

  /** `k` more hex digits from `i` on, after the value `code`. */
  function HexNumber(s: Bytes, i: nat, k: nat, code: nat): (r: Option<nat>)
    requires i <= |s|
    ensures r.Some? && NulFree(s) ==> i + k <= |s|
    decreases k
  {
    if k == 0 then Some(code) else
    match HexValue(CharAt(s, i))
    case None => None
    case Some(d) => if i < |s| then HexNumber(s, i + 1, k - 1, 16 * code + d) else None
  }

  /** One UTF-16 code unit as UTF-8. */
  function UnitBytes(code: nat): (b: Bytes)
    requires code < 0x1_0000
    ensures 1 <= |b| <= 3
  {
    if code < 0x80 then [code]
    else if code < 0x800 then [0xC0 + code / 0x40, 0x80 + code % 0x40]
    else [0xE0 + code / 0x1000, 0x80 + code / 0x40 % 0x40, 0x80 + code % 0x40]
  }

  /** One more than the largest number of `n` hex digits. */
  function HexLimit(n: nat): nat
    requires n <= 4
  {
    if n == 0 then 1 else if n == 1 then 0x10 else if n == 2 then 0x100 else if n == 3 then 0x1000 else 0x1_0000
  }

  lemma {:induction false} HexBound(s: Bytes, i: nat, k: nat, code: nat)
    requires i <= |s| && k <= 4 && code < HexLimit(4 - k) && HexNumber(s, i, k, code).Some?
    ensures HexNumber(s, i, k, code).value < 0x1_0000
    decreases k
  {
    if k != 0 {
      var d := HexValue(CharAt(s, i)).value;
      HexBound(s, i + 1, k - 1, 16 * code + d);
    }
  }

  datatype Item = Item(bytes: Bytes, width: nat)

  /** One character or escape sequence at `i`: what it stands for and how long it is. */
  function ItemAt(s: Bytes, i: nat): (r: Option<Item>)
    requires NulFree(s) && i < |s|
    ensures r.Some? ==> 1 <= |r.value.bytes| <= 3 && 0 < r.value.width <= |s| - i
  {
    if s[i] != BACKSLASH then Some(Item([s[i]], 1)) else
    var c := CharAt(s, i + 1);
    if c == QUOTE || c == BACKSLASH || c == SLASH then Some(Item([c], 2))
    else if c == LOWER_N then Some(Item([NEWLINE], 2))
    else if c == LOWER_R then Some(Item([RETURN], 2))
    else if c == LOWER_T then Some(Item([TAB], 2))
    else if c == LOWER_U then
      match HexNumber(s, i + 2, 4, 0)
      case None => None
      case Some(code) =>
        HexBound(s, i + 2, 4, 0);
        Some(Item(UnitBytes(code), 6))
    else None
  }

  /** The loop of `json_unescape` from `i` on, with `out` written so far. */
  function Scan(s: Bytes, i: nat, out: Bytes, cap: nat): (r: Option<Bytes>)
    requires NulFree(s) && i <= |s|
    ensures r.Some? && |out| < cap ==> |r.value| < cap
    decreases |s| - i
  {
    if i == |s| || s[i] == QUOTE || |out| + 3 >= cap then
      if CharAt(s, i) == QUOTE then Some(out) else None
    else
      match ItemAt(s, i)
      case None => None
      case Some(item) => Scan(s, i + item.width, out + item.bytes, cap)
  }

  /** The string that the literal `s` stands for, when it is one and `cap` bytes suffice. */
  function Unescape(s: Bytes, cap: nat): Option<Bytes>
    requires NulFree(s)
  {
    if CharAt(s, 0) != QUOTE then None else Scan(s, 1, [], cap)
  }

  // ---------------------------------------------------------------- string literals

  /** The ways a character is written in a JSON string literal that the unescaper knows. */
  datatype Form = Plain(c: byte) | Short(c: byte) | Unicode(d0: byte, d1: byte, d2: byte, d3: byte)

  predicate Valid(f: Form) {
    match f
    case Plain(c) => c != QUOTE && c != BACKSLASH && c != 0
    case Short(c) => c == QUOTE || c == BACKSLASH || c == SLASH || c == LOWER_N || c == LOWER_R || c == LOWER_T
    case Unicode(d0, d1, d2, d3) => HexValue(d0).Some? && HexValue(d1).Some? && HexValue(d2).Some? && HexValue(d3).Some?
  }

  function Text(f: Form): (b: Bytes)
    ensures b != []
  {
    match f
    case Plain(c) => [c]
    case Short(c) => [BACKSLASH, c]
    case Unicode(d0, d1, d2, d3) => [BACKSLASH, LOWER_U, d0, d1, d2, d3]
  }

  /** The UTF-16 code unit of four hex digits. */
  function CodeUnit(f: Form): (code: nat)
    requires f.Unicode? && Valid(f)
    ensures code < 0x1_0000
  {
    HexValue(f.d0).value * 0x1000 + HexValue(f.d1).value * 0x100 + HexValue(f.d2).value * 0x10 + HexValue(f.d3).value
  }

  /** The bytes a form stands for; a `\u` escape for the UTF-8 form of its code unit. */
  function Meaning(f: Form): (b: Bytes)
    requires Valid(f)
    ensures 1 <= |b| <= 3
  {
    match f
    case Plain(c) => [c]
    case Short(c) => [if c == LOWER_N then NEWLINE else if c == LOWER_R then RETURN else if c == LOWER_T then TAB else c]
    case Unicode(_, _, _, _) => UnitBytes(CodeUnit(f))
  }

  predicate AllValid(fs: seq<Form>) {
    fs == [] || (Valid(fs[0]) && AllValid(fs[1..]))
  }

  function Texts(fs: seq<Form>): Bytes {
    if fs == [] then [] else Text(fs[0]) + Texts(fs[1..])
  }

  function Meanings(fs: seq<Form>): Bytes
    requires AllValid(fs)
  {
    if fs == [] then [] else Meaning(fs[0]) + Meanings(fs[1..])
  }

  function Literal(fs: seq<Form>): Bytes {
    [QUOTE] + Texts(fs) + [QUOTE]
  }

  /** The loop starts no item unless three bytes and a NUL would fit. */
  predicate Fits(fs: seq<Form>, used: nat, cap: nat)
    requires AllValid(fs)
  {
    fs == [] || (used + 3 < cap && Fits(fs[1..], used + |Meaning(fs[0])|, cap))
  }

  lemma UnicodeItem(e: Bytes, i: nat, f: Form)
    requires NulFree(e) && f.Unicode? && Valid(f) && At(e, i, Text(f))
    ensures HexNumber(e, i + 2, 4, 0) == Some(CodeUnit(f))
  {
    var x := Text(f);
    assert e[i + 2] == x[2] && e[i + 3] == x[3] && e[i + 4] == x[4] && e[i + 5] == x[5];
    var h0, h1, h2, h3 := HexValue(f.d0).value, HexValue(f.d1).value, HexValue(f.d2).value, HexValue(f.d3).value;
    assert HexNumber(e, i + 5, 1, 16 * (16 * h0 + h1) + h2) == Some(16 * (16 * (16 * h0 + h1) + h2) + h3);
    assert HexNumber(e, i + 4, 2, 16 * h0 + h1) == HexNumber(e, i + 5, 1, 16 * (16 * h0 + h1) + h2);
    assert HexNumber(e, i + 3, 3, h0) == HexNumber(e, i + 4, 2, 16 * h0 + h1);
  }

  lemma ShortItem(e: Bytes, i: nat, c: byte)
    requires NulFree(e) && Valid(Short(c)) && At(e, i, Text(Short(c)))
    ensures ItemAt(e, i) == Some(Item(Meaning(Short(c)), 2))
  {
    assert e[i + 0] == Text(Short(c))[0] && e[i + 1] == Text(Short(c))[1];
  }

  lemma ItemIsUnicode(e: Bytes, i: nat, code: nat)
    requires NulFree(e) && i + 1 < |e| && e[i] == BACKSLASH && e[i + 1] == LOWER_U
    requires HexNumber(e, i + 2, 4, 0) == Some(code) && code < 0x1_0000
    ensures ItemAt(e, i) == Some(Item(UnitBytes(code), 6))
  {
  }

  lemma EscapeItem(e: Bytes, i: nat, f: Form)
    requires NulFree(e) && f.Unicode? && Valid(f) && At(e, i, Text(f))
    ensures ItemAt(e, i) == Some(Item(UnitBytes(CodeUnit(f)), 6))
  {
    assert e[i + 0] == Text(f)[0] && e[i + 1] == Text(f)[1];
    UnicodeItem(e, i, f);
    ItemIsUnicode(e, i, CodeUnit(f));
  }

  /** The unescaper reads every form for what it means. */
  lemma FormItem(e: Bytes, i: nat, f: Form)
    requires NulFree(e) && Valid(f) && At(e, i, Text(f))
    ensures e[i] != QUOTE && ItemAt(e, i) == Some(Item(Meaning(f), |Text(f)|))
  {
    assert e[i + 0] == Text(f)[0];
    match f
    case Plain(_) =>
    case Short(c) => ShortItem(e, i, c);
    case Unicode(_, _, _, _) => EscapeItem(e, i, f);
  }

  lemma ScanItem(e: Bytes, i: nat, out: Bytes, cap: nat, item: Item)
    requires NulFree(e) && i < |e| && e[i] != QUOTE && ItemAt(e, i) == Some(item)
    ensures Scan(e, i, out, cap) == if |out| + 3 >= cap then None else Scan(e, i + item.width, out + item.bytes, cap)
  {
  }

  lemma TextsAt(e: Bytes, i: nat, fs: seq<Form>)
    requires fs != [] && At(e, i, Texts(fs) + [QUOTE])
    ensures At(e, i, Text(fs[0])) && At(e, i + |Text(fs[0])|, Texts(fs[1..]) + [QUOTE])
  {
    assert Texts(fs) + [QUOTE] == Text(fs[0]) + (Texts(fs[1..]) + [QUOTE]);
    AtConcat(e, i, Text(fs[0]), Texts(fs[1..]) + [QUOTE]);
  }

  lemma ScanQuote(e: Bytes, i: nat, out: Bytes, cap: nat)
    requires NulFree(e) && At(e, i, [QUOTE])
    ensures Scan(e, i, out, cap) == Some(out)
  {
    assert e[i + 0] == [QUOTE][0];
  }

  lemma {:induction false} ScanForms(e: Bytes, i: nat, fs: seq<Form>, out: Bytes, cap: nat)
    requires NulFree(e) && AllValid(fs) && At(e, i, Texts(fs) + [QUOTE])
    ensures Scan(e, i, out, cap) == if Fits(fs, |out|, cap) then Some(out + Meanings(fs)) else None
    decreases |fs|
  {
    if fs == [] {
      assert Texts(fs) + [QUOTE] == [QUOTE];
      ScanQuote(e, i, out, cap);
      assert out + [] == out;
    } else {
      var f, rest := fs[0], fs[1..];
      TextsAt(e, i, fs);
      ScanForm(e, i, f, out, cap);
      FormsCons(fs, out, cap);
      if |out| + 3 < cap {
        ScanForms(e, i + |Text(f)|, rest, out + Meaning(f), cap);
      }
    }
  }

  lemma FormsCons(fs: seq<Form>, out: Bytes, cap: nat)
    requires fs != [] && AllValid(fs)
    ensures Fits(fs, |out|, cap) == (|out| + 3 < cap && Fits(fs[1..], |out + Meaning(fs[0])|, cap))
    ensures out + Meanings(fs) == out + Meaning(fs[0]) + Meanings(fs[1..])
  {
    Assoc(out, Meaning(fs[0]), Meanings(fs[1..]));
  }

  lemma ScanForm(e: Bytes, i: nat, f: Form, out: Bytes, cap: nat)
    requires NulFree(e) && Valid(f) && At(e, i, Text(f))
    ensures Scan(e, i, out, cap) == if |out| + 3 >= cap then None else Scan(e, i + |Text(f)|, out + Meaning(f), cap)
  {
    FormItem(e, i, f);
    ScanItem(e, i, out, cap, Item(Meaning(f), |Text(f)|));
  }

  /** For every string literal made of plain characters, the short escapes and four-digit escapes
      in either case, whatever follows it, the unescaper returns exactly what it means, when
      there is room for one longest item beyond what was written before each item; otherwise it
      fails. */
  lemma UnescapesFront(fs: seq<Form>, more: Bytes, cap: nat)
    requires AllValid(fs) && NulFree(Literal(fs) + more)
    ensures Unescape(Literal(fs) + more, cap) == if Fits(fs, 0, cap) then Some(Meanings(fs)) else None
  {
    var e := Literal(fs) + more;
    assert e == [QUOTE] + (Texts(fs) + [QUOTE]) + more;
    assert At(e, 1, Texts(fs) + [QUOTE]);
    ScanForms(e, 1, fs, [], cap);
    assert [] + Meanings(fs) == Meanings(fs);
  }

  lemma UnescapesLiteral(fs: seq<Form>, cap: nat)
    requires AllValid(fs) && NulFree(Literal(fs))
    ensures Unescape(Literal(fs), cap) == if Fits(fs, 0, cap) then Some(Meanings(fs)) else None
  {
    assert Literal(fs) + [] == Literal(fs);
    UnescapesFront(fs, [], cap);
  }

  /** The form of the character at `i`. */
  function FormAt(s: Bytes, i: nat): Form
    requires NulFree(s) && i < |s| && ItemAt(s, i).Some?
  {
    if s[i] != BACKSLASH then Plain(s[i])
    else if s[i + 1] != LOWER_U then Short(s[i + 1])
    else Unicode(CharAt(s, i + 2), CharAt(s, i + 3), CharAt(s, i + 4), CharAt(s, i + 5))
  }

  /** Four hex digits read are four hex digits there. */
  lemma DigitsThere(s: Bytes, i: nat)
    requires NulFree(s) && i <= |s| && HexNumber(s, i, 4, 0).Some?
    ensures i + 4 <= |s| && forall k :: i <= k < i + 4 ==> HexValue(s[k]).Some?
  {
    assert HexNumber(s, i + 1, 3, HexValue(s[i]).value).Some?;
    assert HexNumber(s, i + 2, 2, 16 * HexValue(s[i]).value + HexValue(s[i + 1]).value).Some?;
  }

  lemma FormStands(s: Bytes, i: nat)
    requires NulFree(s) && i < |s| && s[i] != QUOTE && ItemAt(s, i).Some?
    ensures Valid(FormAt(s, i)) && At(s, i, Text(FormAt(s, i)))
    ensures ItemAt(s, i) == Some(Item(Meaning(FormAt(s, i)), |Text(FormAt(s, i))|))
  {
    if FormAt(s, i).Unicode? {
      DigitsThere(s, i + 2);
    }
    FormItem(s, i, FormAt(s, i));
  }

  lemma AtJoin(b: Bytes, p: nat, x: Bytes, y: Bytes)
    requires At(b, p, x) && At(b, p + |x|, y)
    ensures At(b, p, x + y)
  {
    forall k | 0 <= k < |x + y|
      ensures b[p + k] == (x + y)[k]
    {
      assert k >= |x| ==> b[p + |x| + (k - |x|)] == y[k - |x|];
    }
  }

  lemma OneFormMore(s: Bytes, i: nat, f: Form, rest: seq<Form>)
    requires Valid(f) && AllValid(rest) && At(s, i, Text(f)) && At(s, i + |Text(f)|, Texts(rest) + [QUOTE])
    ensures AllValid([f] + rest) && At(s, i, Texts([f] + rest) + [QUOTE])
  {
    assert ([f] + rest)[1..] == rest;
    AtJoin(s, i, Text(f), Texts(rest) + [QUOTE]);
    assert Texts([f] + rest) + [QUOTE] == Text(f) + (Texts(rest) + [QUOTE]);
  }

  /** What the loop accepts is a run of forms up to the closing quote. */
  lemma {:induction false} ScanSound(s: Bytes, i: nat, out: Bytes, cap: nat) returns (fs: seq<Form>)
    requires NulFree(s) && i <= |s| && Scan(s, i, out, cap).Some?
    ensures AllValid(fs) && At(s, i, Texts(fs) + [QUOTE])
    decreases |s| - i
  {
    if i == |s| || s[i] == QUOTE || |out| + 3 >= cap {
      fs := [];
      assert [] + [QUOTE] == [QUOTE];
    } else {
      var f := FormAt(s, i);
      FormStands(s, i);
      var rest := ScanSound(s, i + |Text(f)|, out + Meaning(f), cap);
      fs := [f] + rest;
      OneFormMore(s, i, f, rest);
    }
  }

  /** The bytes start with a literal of known forms that fits, and it means `r`. */
  ghost predicate Means(s: Bytes, cap: nat, fs: seq<Form>, r: Bytes) {
    AllValid(fs) && Literal(fs) <= s && Fits(fs, 0, cap) && r == Meanings(fs)
  }

  /** On every C string: the unescaper returns `r` if and only if the string starts with a literal
      of those forms that fits and means `r`; on everything else it fails. */
  lemma UnescapesIff(s: Bytes, cap: nat)
    requires NulFree(s)
    ensures forall r :: Unescape(s, cap) == Some(r) <==> exists fs :: Means(s, cap, fs, r)
  {
    forall r, fs | Means(s, cap, fs, r)
      ensures Unescape(s, cap) == Some(r)
    {
      assert s == Literal(fs) + s[|Literal(fs)|..];
      UnescapesFront(fs, s[|Literal(fs)|..], cap);
    }
    if Unescape(s, cap).Some? {
      var fs := ScanSound(s, 1, [], cap);
      ScanForms(s, 1, fs, [], cap);
      AtJoin(s, 0, [QUOTE], Texts(fs) + [QUOTE]);
      assert Literal(fs) == [QUOTE] + (Texts(fs) + [QUOTE]);
      AtSlice(s, 0, Literal(fs));
      assert Means(s, cap, fs, [] + Meanings(fs));
    }
  }

  // ---------------------------------------------------------------- UTF-8

  lemma UnitOctets(code: nat)
    requires code < 0x1_0000
    ensures Utf8.IsOctets(UnitBytes(code), code)
  {
    if code >= 0x800 {
      Utf8.OctetsOf3(code);
    } else if code >= 0x80 {
      Utf8.OctetsOf2(code);
    }
  }

  lemma OneIsUtf8(b: Bytes, code: nat)
    requires Utf8.IsOctets(b, code)
    ensures Utf8.IsUtf8(b, [code])
  {
    assert b[..|b|] == b && b[|b|..] == [] && [code][1..] == [];
  }

  /** The bytes written for a four-digit escape are the octets that section 3 of RFC 3629 gives
      its code, if it gives it any: to a surrogate it gives none, and they are no UTF-8. */
  lemma UnitBytesAreUtf8(code: nat)
    requires code < 0x1_0000
    ensures Utf8.Scalar(code) ==> UnitBytes(code) == Utf8.Octets(code)
    ensures Utf8.WellFormed(UnitBytes(code)) <==> Utf8.Scalar(code)
  {
    UnitOctets(code);
    OneIsUtf8(UnitBytes(code), code);
    Utf8.WellFormedIff(UnitBytes(code), [code]);
    if Utf8.Scalar(code) {
      OneIsUtf8(Utf8.Octets(code), code);
      Utf8.Utf8Unique(UnitBytes(code), Utf8.Octets(code), [code]);
    }
  }

  /** A character of a literal: one that stands for itself, or an escape. */
  datatype Char = Raw(code: nat) | Escaped(f: Form)

  predicate CharOk(ch: Char) {
    match ch
    case Raw(code) => Utf8.Scalar(code) && code != QUOTE && code != BACKSLASH && code != 0
    case Escaped(f) => !f.Plain? && Valid(f)
  }

  predicate CharsOk(chs: seq<Char>) {
    chs == [] || (CharOk(chs[0]) && CharsOk(chs[1..]))
  }

  function Plains(b: Bytes): seq<Form> {
    if b == [] then [] else [Plain(b[0])] + Plains(b[1..])
  }

  function Spelling(ch: Char): seq<Form>
    requires CharOk(ch)
  {
    if ch.Raw? then Plains(Utf8.Octets(ch.code)) else [ch.f]
  }

  /** The literal's forms, byte by byte. */
  function Spell(chs: seq<Char>): seq<Form>
    requires CharsOk(chs)
  {
    if chs == [] then [] else Spelling(chs[0]) + Spell(chs[1..])
  }

  /** The number a character is taken for. */
  function Code(ch: Char): nat
    requires CharOk(ch)
  {
    match ch
    case Raw(code) => code
    case Escaped(f) => if f.Unicode? then CodeUnit(f) else Meaning(f)[0]
  }

  function Codes(chs: seq<Char>): (cs: seq<nat>)
    requires CharsOk(chs)
    ensures |cs| == |chs|
  {
    if chs == [] then [] else [Code(chs[0])] + Codes(chs[1..])
  }

  lemma {:induction false} AllValidAppend(a: seq<Form>, b: seq<Form>)
    requires AllValid(a) && AllValid(b)
    ensures AllValid(a + b) && Meanings(a + b) == Meanings(a) + Meanings(b)
  {
    if a == [] {
      assert a + b == b;
    } else {
      AllValidAppend(a[1..], b);
      assert (a + b)[0] == a[0] && (a + b)[1..] == a[1..] + b;
      Assoc(Meaning(a[0]), Meanings(a[1..]), Meanings(b));
    }
  }

  lemma {:induction false} PlainsMean(b: Bytes)
    requires forall i :: 0 <= i < |b| ==> Valid(Plain(b[i]))
    ensures AllValid(Plains(b)) && Meanings(Plains(b)) == b
  {
    if b != [] {
      PlainsMean(b[1..]);
      assert Plains(b)[0] == Plain(b[0]) && Plains(b)[1..] == Plains(b[1..]);
      assert [b[0]] + b[1..] == b;
    }
  }

  /** No octet of a character other than these is a quote, a backslash or a NUL. */
  lemma OctetsPlain(code: nat)
    requires CharOk(Raw(code))
    ensures forall i :: 0 <= i < |Utf8.Octets(code)| ==> Valid(Plain(Utf8.Octets(code)[i]))
  {
    var b := Utf8.Octets(code);
    assert code > 0x7F ==> b[0] >= 0xC0;
  }

  lemma SpellingMeans(ch: Char)
    requires CharOk(ch)
    ensures AllValid(Spelling(ch)) && Utf8.IsOctets(Meanings(Spelling(ch)), Code(ch))
  {
    match ch
    case Raw(code) => {
      OctetsPlain(code);
      PlainsMean(Utf8.Octets(code));
    }
    case Escaped(f) => {
      assert [f][1..] == [] && Meaning(f) + [] == Meaning(f);
      if f.Unicode? {
        UnitOctets(CodeUnit(f));
      }
    }
  }

  lemma {:induction false} SpellMeans(chs: seq<Char>)
    requires CharsOk(chs)
    ensures AllValid(Spell(chs)) && Utf8.IsUtf8(Meanings(Spell(chs)), Codes(chs))
  {
    if chs != [] {
      SpellingMeans(chs[0]);
      SpellMeans(chs[1..]);
      AllValidAppend(Spelling(chs[0]), Spell(chs[1..]));
      var b, rest := Meanings(Spelling(chs[0])), Meanings(Spell(chs[1..]));
      assert (b + rest)[..|b|] == b && (b + rest)[|b|..] == rest && Codes(chs)[1..] == Codes(chs[1..]);
    }
  }

  predicate SurrogateEscape(ch: Char) {
    ch.Escaped? && ch.f.Unicode? && Valid(ch.f) && 0xD800 <= CodeUnit(ch.f) <= 0xDFFF
  }

  lemma {:induction false} CodesScalar(chs: seq<Char>)
    requires CharsOk(chs)
    ensures Utf8.AllScalar(Codes(chs)) <==> forall i :: 0 <= i < |chs| ==> !SurrogateEscape(chs[i])
  {
    if chs != [] {
      CodesScalar(chs[1..]);
      assert Codes(chs)[1..] == Codes(chs[1..]);
      assert Utf8.AllScalar(Codes(chs)) <==> Utf8.Scalar(Codes(chs)[0]) && Utf8.AllScalar(Codes(chs)[1..]);
      assert Utf8.Scalar(Code(chs[0])) <==> !SurrogateEscape(chs[0]);
    }
  }

  /** What a literal unescapes to is UTF-8 if and only if no escape in it is a surrogate, given
      that the characters that are not escaped are UTF-8. */
  lemma UnescapesToUtf8Iff(chs: seq<Char>, cap: nat)
    requires CharsOk(chs) && NulFree(Literal(Spell(chs))) && Unescape(Literal(Spell(chs)), cap).Some?
    ensures Utf8.WellFormed(Unescape(Literal(Spell(chs)), cap).value) <==> forall i :: 0 <= i < |chs| ==> !SurrogateEscape(chs[i])
  {
    SpellMeans(chs);
    UnescapesLiteral(Spell(chs), cap);
    Utf8.WellFormedIff(Meanings(Spell(chs)), Codes(chs));
    CodesScalar(chs);
  }

  /** `\ud83d` and `\ude00`, the surrogates of U+1F600. */
  const HIGH_HALF := Unicode(100, 56, 51, 100)
  const LOW_HALF := Unicode(100, 101, 48, 48)

  lemma HalvesMean()
    ensures Valid(HIGH_HALF) && CodeUnit(HIGH_HALF) == 0xD83D && Meaning(HIGH_HALF) == [0xED, 0xA0, 0xBD]
    ensures Valid(LOW_HALF) && CodeUnit(LOW_HALF) == 0xDE00 && Meaning(LOW_HALF) == [0xED, 0xB8, 0x80]
  {
  }

  lemma PairText()
    ensures Literal([HIGH_HALF, LOW_HALF]) == [QUOTE, 92, 117, 100, 56, 51, 100, 92, 117, 100, 101, 48, 48, QUOTE]
    ensures NulFree(Literal([HIGH_HALF, LOW_HALF]))
  {
    assert [HIGH_HALF, LOW_HALF][1..] == [LOW_HALF] && [LOW_HALF][1..] == [];
    assert Texts([LOW_HALF]) == Text(LOW_HALF);
    assert Texts([HIGH_HALF, LOW_HALF]) == Text(HIGH_HALF) + Text(LOW_HALF);
  }

  lemma PairMeans(cap: nat)
    requires cap >= 7
    ensures AllValid([HIGH_HALF, LOW_HALF]) && Fits([HIGH_HALF, LOW_HALF], 0, cap)
    ensures Meanings([HIGH_HALF, LOW_HALF]) == [0xED, 0xA0, 0xBD, 0xED, 0xB8, 0x80]
  {
    HalvesMean();
    assert [HIGH_HALF, LOW_HALF][1..] == [LOW_HALF] && [LOW_HALF][1..] == [];
    assert AllValid([LOW_HALF]) && Fits([LOW_HALF], 3, cap) && Meanings([LOW_HALF]) == Meaning(LOW_HALF);
  }

  lemma FourOctets()
    ensures Utf8.Octets(0x1F600) == [0xF0, 0x9F, 0x98, 0x80]
  {
  }

  /** The escapes of a surrogate pair come out as six bytes, and not as the four octets of the
      character they stand for together. */
  lemma SurrogatePairEscaped(cap: nat)
    requires cap >= 7
    ensures NulFree(Literal([HIGH_HALF, LOW_HALF]))
    ensures Unescape(Literal([HIGH_HALF, LOW_HALF]), cap) == Some([0xED, 0xA0, 0xBD, 0xED, 0xB8, 0x80])
    ensures Utf8.Octets(0x1F600) == [0xF0, 0x9F, 0x98, 0x80]
  {
    PairText();
    PairMeans(cap);
    FourOctets();
    UnescapesLiteral([HIGH_HALF, LOW_HALF], cap);
  }

  // ---------------------------------------------------------------- round trip

  /** How the escapers write a byte. */
  function FormOf(c: byte): (f: Form)
    requires c != 0
    ensures Valid(f) && Text(f) == EscapeByte(c) && Meaning(f) == [c]
  {
    if c == BACKSLASH || c == QUOTE then Short(c)
    else if c == NEWLINE then Short(LOWER_N)
    else if c == RETURN then Short(LOWER_R)
    else if c == TAB then Short(LOWER_T)
    else if c < 0x20 then Unicode(DIGIT_0, DIGIT_0, HexDigit(c / 16), HexDigit(c % 16))
    else Plain(c)
  }

  function Forms(s: Bytes): (fs: seq<Form>)
    requires NulFree(s)
    ensures |fs| == |s| && AllValid(fs)
  {
    if s == [] then [] else
    assert s[0] in s;
    [FormOf(s[0])] + Forms(s[1..])
  }

  lemma BodyLast(s: Bytes, front: Bytes, last: byte)
    requires s == front + [last]
    ensures Body(s) == Body(front) + EscapeByte(last)
  {
    assert s[..|s| - 1] == front;
  }

  lemma {:induction false} BodyCons(c: byte, s: Bytes)
    ensures Body([c] + s) == EscapeByte(c) + Body(s)
    decreases |s|
  {
    if s == [] {
      BodyLast([c] + s, [], c);
    } else {
      var front, last := s[..|s| - 1], s[|s| - 1];
      BodyCons(c, front);
      BodyLast([c] + s, [c] + front, last);
      Assoc(EscapeByte(c), Body(front), EscapeByte(last));
    }
  }

  lemma {:induction false} FormsSpellBody(s: Bytes)
    requires NulFree(s)
    ensures Texts(Forms(s)) == Body(s) && Meanings(Forms(s)) == s
  {
    if s != [] {
      assert s[0] in s;
      FormsSpellBody(s[1..]);
      assert s == [s[0]] + s[1..];
      BodyCons(s[0], s[1..]);
      assert Forms(s)[1..] == Forms(s[1..]);
    }
  }

  lemma {:induction false} FormsFit(s: Bytes, used: nat, cap: nat)
    requires NulFree(s)
    ensures Fits(Forms(s), used, cap) <==> s == [] || used + |s| + 3 <= cap
    decreases |s|
  {
    if s != [] {
      assert s[0] in s;
      FormsFit(s[1..], used + 1, cap);
      assert Forms(s)[1..] == Forms(s[1..]);
    }
  }

  /** Unescaping inverts escaping exactly when the output has room: the string's bytes and
      three more, which the loop keeps free for a longest encoding. With less room it fails; it
      never returns a different string. */
  lemma EscapeRoundTrip(s: Bytes, cap: nat)
    requires NulFree(s)
    ensures NulFree(Escape(s))
    ensures Unescape(Escape(s), cap) == if s == [] || cap >= |s| + 3 then Some(s) else None
  {
    NoControlCharacters(s);
    FormsSpellBody(s);
    FormsFit(s, 0, cap);
    UnescapesLiteral(Forms(s), cap);
  }

  /** Different strings have different literals. */
  lemma EscapeInjective(s: Bytes, t: Bytes)
    requires NulFree(s) && NulFree(t) && Escape(s) == Escape(t)
    ensures s == t
  {
    EscapeRoundTrip(s, |s| + |t| + 3);
    EscapeRoundTrip(t, |s| + |t| + 3);
  }

  // ---------------------------------------------------------------- the unescaping loop

  /** The four hex digits of an escape; `None` at the first character that is none. */
  method TakeHex(s: Bytes, i: nat) returns (r: Option<nat>)
    requires NulFree(s) && i <= |s|
    ensures r == HexNumber(s, i, 4, 0)
  {
    var code: nat, k: nat := 0, 0;
    while k < 4
      invariant k <= 4 && i + k <= |s| && HexNumber(s, i + k, 4 - k, code) == HexNumber(s, i, 4, 0)
    {
      var d := HexValue(CharAt(s, i + k));
      if d.None? {
        return None;
      }
      code, k := 16 * code + d.value, k + 1;
    }
    r := Some(code);
  }

  /** The switch of `json_unescape`. */
  method TakeItem(s: Bytes, i: nat) returns (r: Option<Item>)
    requires NulFree(s) && i < |s|
    ensures r == ItemAt(s, i)
  {
    if s[i] != BACKSLASH {
      return Some(Item([s[i]], 1));
    }
    var c := CharAt(s, i + 1);
    if c == QUOTE || c == BACKSLASH || c == SLASH {
      r := Some(Item([c], 2));
    } else if c == LOWER_N {
      r := Some(Item([NEWLINE], 2));
    } else if c == LOWER_R {
      r := Some(Item([RETURN], 2));
    } else if c == LOWER_T {
      r := Some(Item([TAB], 2));
    } else if c == LOWER_U {
      var code := TakeHex(s, i + 2);
      if code.None? {
        return None;
      }
      HexBound(s, i + 2, 4, 0);
      r := Some(Item(UnitBytes(code.value), 6));
    } else {
      r := None;
    }
  }

  /** The scan stands at `i`, with `m` bytes written. */
  ghost predicate Unescaping(s: Bytes, i: nat, out: array<byte>, m: nat)
    requires NulFree(s)
    reads out
  {
    i <= |s| && m < out.Length && Scan(s, i, out[..m], out.Length) == Unescape(s, out.Length)
  }

  method PutItem(s: Bytes, i: nat, out: array<byte>, m: nat, item: Item)
    requires NulFree(s) && i < |s| && s[i] != QUOTE && ItemAt(s, i) == Some(item)
    requires m + 3 < out.Length && Unescaping(s, i, out, m)
    modifies out
    ensures i + item.width <= |s| && m + |item.bytes| < out.Length && Unescaping(s, i + item.width, out, m + |item.bytes|)
  {
    ghost var before := out[..m];
    ScanItem(s, i, before, out.Length, item);
    Copy(out, m, item.bytes);
    assert out[..m] == before;
    Appended(out[..], m, item.bytes);
  }

  /** `json_unescape`: a cursor into the literal and a cursor into the output, which ends with
      a NUL. -1 stands for malformed input, or output without room. */
  method UnescapeInto(s: Bytes, out: array<byte>) returns (n: int)
    requires NulFree(s) && out.Length >= 1
    modifies out
    ensures match Unescape(s, out.Length) { case None => n == -1 case Some(t) => n == |t| < out.Length && out[..n] == t && out[n] == 0 }
  {
    if CharAt(s, 0) != QUOTE {
      return -1;
    }
    var i: nat, m: nat := 1, 0;
    while CharAt(s, i) != 0 && CharAt(s, i) != QUOTE && m + 3 < out.Length
      invariant i <= |s| && m < out.Length && Unescaping(s, i, out, m)
      decreases |s| - i
    {
      var item := TakeItem(s, i);
      if item.None? {
        return -1;
      }
      PutItem(s, i, out, m, item.value);
      i, m := i + item.value.width, m + |item.value.bytes|;
    }
    if CharAt(s, i) != QUOTE {
      return -1;
    }
    out[m] := 0;
    n := m;
  }
}
