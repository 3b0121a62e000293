/**
 The text of a paging cursor: a JSON object of strings with every character outside ASCII escaped, in unpadded base64.

 The decoder reads the layout the encoder writes.  Characters are Unicode scalar values, so an unpaired surrogate escape
 is no character here.
 */
module Cursors {
  import opened Text
  import opened Paging
  import Base64Url

  // ---------------------------------------------------------------- decimal identifiers

  function DecimalDigit(n: nat): char
    requires n < 10
  {
    ('0' as int + n) as char
  }

  function Decimal(n: nat): string {
    if n < 10 then [DecimalDigit(n)] else Decimal(n / 10) + [DecimalDigit(n % 10)]
  }

  predicate AreDigits(s: string) {
    forall i | 0 <= i < |s| :: '0' <= s[i] <= '9'
  }

  function Value(s: string): nat
    requires AreDigits(s)
  {
    if s == "" then 0 else Value(s[..|s| - 1]) * 10 + (s[|s| - 1] as int - '0' as int)
  }

  const ID_LIMIT := 0x1_0000_0000_0000_0000

  /** `_snowflake`: the decimal text of a 64-bit number, zero allowed. */
  predicate IsSnowflake(s: string) {
    1 <= |s| <= 20 && AreDigits(s) && Value(s) < ID_LIMIT && Decimal(Value(s)) == s
  }

  lemma {:induction false} ValueOfDecimal(n: nat)
    ensures AreDigits(Decimal(n)) && Decimal(n) != "" && Value(Decimal(n)) == n
  {
    if n < 10 {
      assert [DecimalDigit(n)][..0] == "";
    } else {
      ValueOfDecimal(n / 10);
      assert Decimal(n)[..|Decimal(n)| - 1] == Decimal(n / 10);
    }
  }

  function Pow10(k: nat): nat {
    if k == 0 then 1 else 10 * Pow10(k - 1)
  }

  lemma {:induction false} LengthOfDecimal(n: nat, k: nat)
    requires 1 <= k && n < Pow10(k)
    ensures |Decimal(n)| <= k
  {
    if n >= 10 {
      assert k > 1 by { assert Pow10(1) == 10; }
      LengthOfDecimal(n / 10, k - 1);
    }
  }

  lemma TwentyDigits()
    ensures Pow10(20) > ID_LIMIT
  {
    assert Pow10(2) == 100;
    assert Pow10(4) == 10_000;
    assert Pow10(6) == 1_000_000;
    assert Pow10(8) == 100_000_000;
    assert Pow10(10) == 10_000_000_000;
    assert Pow10(12) == 1_000_000_000_000;
    assert Pow10(14) == 100_000_000_000_000;
    assert Pow10(16) == 10_000_000_000_000_000;
    assert Pow10(18) == 1_000_000_000_000_000_000;
  }

  lemma DecimalIsSnowflake(n: nat)
    requires n < ID_LIMIT
    ensures IsSnowflake(Decimal(n))
  {
    TwentyDigits();
    LengthOfDecimal(n, 20);
    ValueOfDecimal(n);
  }

  // ---------------------------------------------------------------- JSON strings

  function HexDigit(n: nat): char
    requires n < 16
  {
    if n < 10 then ('0' as int + n) as char else ('a' as int + n - 10) as char
  }

  function HexValue(c: char): (n: Option<nat>)
    ensures n.Some? ==> n.value < 16
  {
    if '0' <= c <= '9' then Some(c as int - '0' as int)
    else if 'a' <= c <= 'f' then Some(c as int - 'a' as int + 10)
    else if 'A' <= c <= 'F' then Some(c as int - 'A' as int + 10)
    else None
  }

  function Hex4(n: nat): (t: string)
    requires n < 0x1_0000
    ensures |t| == 4
  {
    [HexDigit(n / 16 / 16 / 16), HexDigit(n / 16 / 16 % 16), HexDigit(n / 16 % 16), HexDigit(n % 16)]
  }

  function Hex4Value(t: string): (n: Option<nat>)
    requires |t| == 4
    ensures n.Some? ==> n.value < 0x1_0000
  {
    var a, b, c, d := HexValue(t[0]), HexValue(t[1]), HexValue(t[2]), HexValue(t[3]);
    if a.None? || b.None? || c.None? || d.None? then None
    else Some(a.value * 4096 + b.value * 256 + c.value * 16 + d.value)
  }

  lemma HexBack(n: nat)
    requires n < 16
    ensures HexValue(HexDigit(n)) == Some(n)
  {
  }

  lemma Hex4Back(n: nat)
    requires n < 0x1_0000
    ensures Hex4Value(Hex4(n)) == Some(n)
  {
    hide HexValue, HexDigit;
    var a, b, c := n / 16 / 16 / 16, n / 16 / 16 % 16, n / 16 % 16;
    HexBack(a);
    HexBack(b);
    HexBack(c);
    HexBack(n % 16);
    assert n / 16 / 16 == a * 16 + b && n / 16 == (a * 16 + b) * 16 + c;
  }

  /** The letter of a two-character escape. */
  function Letter(c: char): Option<char> {
    if c == '\"' then Some('\"')
    else if c == '\\' then Some('\\')
    else if c == '\U{8}' then Some('b')
    else if c == '\U{C}' then Some('f')
    else if c == '\n' then Some('n')
    else if c == '\r' then Some('r')
    else if c == '\t' then Some('t')
    else None
  }

  function OfLetter(c: char): Option<char> {
    if c in {'\"', '\\', '/'} then Some(c)
    else if c == 'b' then Some('\U{8}')
    else if c == 'f' then Some('\U{C}')
    else if c == 'n' then Some('\n')
    else if c == 'r' then Some('\r')
    else if c == 't' then Some('\t')
    else None
  }

  predicate IsHigh(n: nat) {
    0xD800 <= n < 0xDC00
  }

  predicate IsLow(n: nat) {
    0xDC00 <= n < 0xE000
  }

  function Escape(c: char): string {
    if Letter(c).Some? then "\\" + [Letter(c).value]
    else if ' ' <= c <= '~' then [c]
    else if c as int < 0x1_0000 then "\\u" + Hex4(c as int)
    else
      var v := c as int - 0x1_0000;
      "\\u" + Hex4(0xD800 + v / 1024) + "\\u" + Hex4(0xDC00 + v % 1024)
  }

  function Escaped(s: string): string {
    if s == "" then "" else Escape(s[0]) + Escaped(s[1..])
  }

  /** A `\u` escape at the front of a text. */
  function Unit(t: string): Option<nat> {
    if |t| >= 6 && t[0] == '\\' && t[1] == 'u' then Hex4Value(t[2..6]) else None
  }

  /** One character of a JSON string, and the text after it. */
  function Unescape(t: string): (r: Option<(char, string)>)
    requires t != ""
    ensures r.Some? ==> |r.value.1| < |t|
  {
    if t[0] != '\\' then (if t[0] < ' ' || t[0] == '\"' then None else Some((t[0], t[1..])))
    else if |t| >= 2 && OfLetter(t[1]).Some? then Some((OfLetter(t[1]).value, t[2..]))
    else
      var n := Unit(t);
      if n.None? || IsLow(n.value) then None
      else if !IsHigh(n.value) then Some((n.value as char, t[6..]))
      else
        var m := Unit(t[6..]);
        if m.None? || !IsLow(m.value) then None
        else Some(((0x1_0000 + (n.value - 0xD800) * 1024 + (m.value - 0xDC00)) as char, t[12..]))
  }

  /** The string up to its closing quote, and the text after it. */
  function ReadString(t: string): Option<(string, string)> {
    if t == "" then None
    else if t[0] == '\"' then Some(("", t[1..]))
    else
      var first := Unescape(t);
      if first.None? then None
      else
        var rest := ReadString(first.value.1);
        if rest.None? then None else Some(([first.value.0] + rest.value.0, rest.value.1))
  }

  lemma UnitOfHex(n: nat, rest: string)
    requires n < 0x1_0000
    ensures Unit("\\u" + Hex4(n) + rest) == Some(n) && ("\\u" + Hex4(n) + rest)[6..] == rest
  {
    Hex4Back(n);
    var t := "\\u" + Hex4(n) + rest;
    assert t[2..6] == Hex4(n);
  }

  lemma UnescapeLetter(c: char, rest: string)
    requires Letter(c).Some? || ' ' <= c <= '~'
    ensures Unescape(Escape(c) + rest) == Some((c, rest))
  {
    var t := Escape(c) + rest;
    if Letter(c).Some? {
      assert t[0] == '\\' && t[1] == Letter(c).value && t[2..] == rest;
    } else {
      assert t[0] == c && t[1..] == rest;
    }
    hide Hex4, Hex4Value;
  }

  lemma UnescapeUnit(c: char, rest: string)
    requires Letter(c).None? && !(' ' <= c <= '~') && c as int < 0x1_0000
    ensures Unescape(Escape(c) + rest) == Some((c, rest))
  {
    hide Hex4, Hex4Value;
    UnitOfHex(c as int, rest);
    assert (Escape(c) + rest)[1] == 'u';
  }

  lemma UnescapePair(c: char, rest: string)
    requires c as int >= 0x1_0000
    ensures Unescape(Escape(c) + rest) == Some((c, rest))
  {
    hide Hex4, Hex4Value, Unit;
    var v := c as int - 0x1_0000;
    var high, low := 0xD800 + v / 1024, 0xDC00 + v % 1024;
    var more := "\\u" + Hex4(low) + rest;
    assert Escape(c) + rest == "\\u" + Hex4(high) + more;
    UnitOfHex(high, more);
    UnitOfHex(low, rest);
    assert ("\\u" + Hex4(high) + more)[12..] == rest;
    assert ("\\u" + Hex4(high) + more)[1] == 'u';
  }

  lemma UnescapeEscape(c: char, rest: string)
    ensures Escape(c) != "" && Escape(c)[0] != '\"' && Unescape(Escape(c) + rest) == Some((c, rest))
  {
    hide Unescape;
    if Letter(c).Some? || ' ' <= c <= '~' {
      UnescapeLetter(c, rest);
    } else if c as int < 0x1_0000 {
      UnescapeUnit(c, rest);
    } else {
      UnescapePair(c, rest);
    }
  }

  /** Reading an escaped string gives it back. */
  lemma {:induction false} ReadEscaped(s: string, rest: string)
    ensures ReadString(Escaped(s) + "\"" + rest) == Some((s, rest))
  {
    hide Escape, Unescape;
    if s == "" {
      assert ("" + "\"" + rest)[1..] == rest;
    } else {
      var more := Escaped(s[1..]) + "\"" + rest;
      UnescapeEscape(s[0], more);
      ReadEscaped(s[1..], rest);
      assert Escaped(s) + "\"" + rest == Escape(s[0]) + more;
      assert [s[0]] + s[1..] == s;
    }
  }

  predicate IsAscii(t: string) {
    forall i | 0 <= i < |t| :: t[i] < '\U{80}'
  }

  lemma EscapeIsAscii(c: char)
    ensures IsAscii(Escape(c)) && |Escape(c)| <= 12 && (c as int < 0x1_0000 ==> |Escape(c)| <= 6)
    ensures c as int >= 0x1_0000 ==> |Escape(c)| == 12
  {
  }

  lemma {:induction false} EscapedIsAscii(s: string)
    ensures IsAscii(Escaped(s))
  {
    hide Escape;
    if s != "" {
      EscapeIsAscii(s[0]);
      EscapedIsAscii(s[1..]);
    }
  }

  // ---------------------------------------------------------------- the cursor

  const PLATFORM := "discord"

  /** The strings of a cursor. */
  datatype Fields = Fields(platform: string, workspace: string, channel: string, last: string)

  const BEFORE_PLATFORM := "{\"v\":1,\"platform\":\""
  const BEFORE_WORKSPACE := ",\"workspace_id\":\""
  const BEFORE_CHANNEL := ",\"channel_id\":\""
  const BEFORE_LAST := ",\"last_message_id\":\""

  function Member(name: string, s: string, rest: string): string {
    name + (Escaped(s) + "\"" + rest)
  }

  function Json(f: Fields): string {
    Member(BEFORE_PLATFORM, f.platform, Member(BEFORE_WORKSPACE, f.workspace,
           Member(BEFORE_CHANNEL, f.channel, Member(BEFORE_LAST, f.last, "}"))))
  }

  function ReadMember(name: string, t: string): Option<(string, string)> {
    if name <= t then ReadString(t[|name|..]) else None
  }

  function Load(t: string): Option<Fields> {
    match ReadMember(BEFORE_PLATFORM, t)
    case None => None
    case Some((platform, t1)) =>
      match ReadMember(BEFORE_WORKSPACE, t1)
      case None => None
      case Some((workspace, t2)) =>
        match ReadMember(BEFORE_CHANNEL, t2)
        case None => None
        case Some((channel, t3)) =>
          match ReadMember(BEFORE_LAST, t3)
          case None => None
          case Some((last, t4)) => if t4 == "}" then Some(Fields(platform, workspace, channel, last)) else None
  }

  lemma ReadMemberBack(name: string, s: string, rest: string)
    ensures ReadMember(name, Member(name, s, rest)) == Some((s, rest))
  {
    hide ReadString, Escaped;
    ReadEscaped(s, rest);
    assert Member(name, s, rest)[|name|..] == Escaped(s) + "\"" + rest;
  }

  lemma LoadJson(f: Fields)
    ensures Load(Json(f)) == Some(f)
  {
    hide ReadMember, Member;
    var t3 := Member(BEFORE_LAST, f.last, "}");
    var t2 := Member(BEFORE_CHANNEL, f.channel, t3);
    var t1 := Member(BEFORE_WORKSPACE, f.workspace, t2);
    ReadMemberBack(BEFORE_PLATFORM, f.platform, t1);
    ReadMemberBack(BEFORE_WORKSPACE, f.workspace, t2);
    ReadMemberBack(BEFORE_CHANNEL, f.channel, t3);
    ReadMemberBack(BEFORE_LAST, f.last, "}");
  }

  lemma MemberIsAscii(name: string, s: string, rest: string)
    requires IsAscii(name) && IsAscii(rest)
    ensures IsAscii(Member(name, s, rest)) && |Member(name, s, rest)| == |name| + |Escaped(s)| + 1 + |rest|
  {
    hide Escaped;
    EscapedIsAscii(s);
  }

  /** The length of a cursor's JSON: that of its escaped strings, and of the layout around them. */
  const LAYOUT := |BEFORE_PLATFORM| + |BEFORE_WORKSPACE| + |BEFORE_CHANNEL| + |BEFORE_LAST| + 5

  lemma JsonIsAscii(f: Fields)
    ensures IsAscii(Json(f))
    ensures |Json(f)| ==
              LAYOUT + |Escaped(f.platform)| + |Escaped(f.workspace)| + |Escaped(f.channel)| + |Escaped(f.last)|
  {
    hide Member, Escaped;
    var t3 := Member(BEFORE_LAST, f.last, "}");
    var t2 := Member(BEFORE_CHANNEL, f.channel, t3);
    var t1 := Member(BEFORE_WORKSPACE, f.workspace, t2);
    MemberIsAscii(BEFORE_LAST, f.last, "}");
    MemberIsAscii(BEFORE_CHANNEL, f.channel, t3);
    MemberIsAscii(BEFORE_WORKSPACE, f.workspace, t2);
    MemberIsAscii(BEFORE_PLATFORM, f.platform, t1);
  }

  function Bytes(t: string): seq<Base64Url.Byte>
    requires IsAscii(t)
  {
    seq(|t|, i requires 0 <= i < |t| => t[i] as int)
  }

  function AsciiOf(b: seq<Base64Url.Byte>): Option<string> {
    if exists i :: 0 <= i < |b| && b[i] >= 128 then None
    else Some(seq(|b|, i requires 0 <= i < |b| => b[i] as char))
  }

  /** The workspace and channel of a request; its platform is the one supported. */
  datatype Scope = Scope(workspace: string, channel: string)

  function FieldsOf(scope: Scope, last: Id): Fields {
    Fields(PLATFORM, scope.workspace, scope.channel, Decimal(last))
  }

  /** `_encode_cursor`. */
  function EncodeCursor(scope: Scope, last: Id): string {
    JsonIsAscii(FieldsOf(scope, last));
    Base64Url.Encode(Bytes(Json(FieldsOf(scope, last))))
  }

  const MAX_CURSOR_LEN := 4096

  predicate IsCursorText(s: string) {
    1 <= |s| <= MAX_CURSOR_LEN && forall i | 0 <= i < |s| :: Base64Url.IsDigit(s[i])
  }

  /** What the text of a cursor says, if it is one. */
  function Parse(cursor: string): Option<Fields> {
    if !IsCursorText(cursor) then None
    else
      match Base64Url.Decode(cursor)
      case None => None
      case Some(bytes) => if AsciiOf(bytes).None? then None else Load(AsciiOf(bytes).value)
  }

  /** `_decode_cursor`. */
  function DecodeCursor(cursor: string, scope: Scope): Result<Id, HistoryError> {
    match Parse(cursor)
    case None => Err(InvalidCursor)
    case Some(f) =>
      if !IsSnowflake(f.last) then Err(InvalidCursor)
      else if f.platform != PLATFORM || f.workspace != scope.workspace || f.channel != scope.channel
      then Err(ScopeMismatch)
      else Ok(Value(f.last))
  }

  const MAX_JSON_LEN := 3072

  /** Is the cursor no longer than the decoder accepts? */
  predicate Fits(scope: Scope, last: Id) {
    LAYOUT + |Escaped(PLATFORM)| + |Escaped(scope.workspace)| + |Escaped(scope.channel)| + |Escaped(Decimal(last))|
      <= MAX_JSON_LEN
  }

  lemma AsciiBack(t: string)
    requires IsAscii(t)
    ensures AsciiOf(Bytes(t)) == Some(t)
  {
    var b := Bytes(t);
    assert forall i | 0 <= i < |b| :: b[i] < 128 && b[i] as char == t[i];
    assert AsciiOf(b).value == t;
  }

  lemma LayoutLength()
    ensures LAYOUT > 0
  {
  }

  /** The cursor's text is accepted, and read back, exactly if it fits. */
  lemma ParseEncoded(scope: Scope, last: Id)
    ensures Parse(EncodeCursor(scope, last)) == if Fits(scope, last) then Some(FieldsOf(scope, last)) else None
  {
    hide Load, Json, Escaped, Bytes, AsciiOf, Decimal, Base64Url.Encode, Base64Url.Decode, Base64Url.IsDigit;
    var f := FieldsOf(scope, last);
    JsonIsAscii(f);
    LoadJson(f);
    AsciiBack(Json(f));
    var bytes := Bytes(Json(f));
    assert |bytes| == |Json(f)| by { LengthOfBytes(Json(f)); }
    Base64Url.EncodeMeans(bytes);
    Base64Url.DecodeEncode(bytes);
    LayoutLength();
  }

  lemma LengthOfBytes(t: string)
    requires IsAscii(t)
    ensures |Bytes(t)| == |t|
  {
  }

  /**
   A cursor decodes to the position it was made for in its own scope, and is refused as another's in every other,
   exactly if it fits; one that does not fit is refused as no cursor, in its own scope too.
   */
  lemma CursorExact(scope: Scope, other: Scope, last: Id)
    requires last < ID_LIMIT
    ensures DecodeCursor(EncodeCursor(scope, last), other) ==
              if !Fits(scope, last) then Err(InvalidCursor) else if other == scope then Ok(last) else Err(ScopeMismatch)
  {
    hide Parse, EncodeCursor, Fits, IsSnowflake, Value, Decimal, AreDigits;
    ParseEncoded(scope, last);
    DecimalIsSnowflake(last);
    ValueOfDecimal(last);
  }

  // ---------------------------------------------------------------- which workspaces fit

  /** What a request demands of its workspace id. */
  predicate IsWorkspaceId(s: string) {
    s != "" && Strip(s) == s && |s| <= 256 && forall i | 0 <= i < |s| :: s[i] >= ' '
  }

  lemma {:induction false} EscapedLength(s: string)
    ensures |Escaped(s)| <= 12 * |s|
    ensures (forall i | 0 <= i < |s| :: s[i] as int < 0x1_0000) ==> |Escaped(s)| <= 6 * |s|
    ensures (forall i | 0 <= i < |s| :: s[i] as int >= 0x1_0000) ==> |Escaped(s)| == 12 * |s|
  {
    hide Escape;
    if s != "" {
      EscapeIsAscii(s[0]);
      EscapedLength(s[1..]);
    }
  }

  /** Every workspace id whose characters lie in the basic plane fits. */
  lemma BasicPlaneFits(scope: Scope, last: Id)
    requires IsWorkspaceId(scope.workspace) && IsSnowflake(scope.channel) && last < ID_LIMIT
    requires forall i | 0 <= i < |scope.workspace| :: scope.workspace[i] as int < 0x1_0000
    ensures Fits(scope, last)
  {
    EscapedLength(PLATFORM);
    EscapedLength(scope.workspace);
    EscapedLength(scope.channel);
    EscapedLength(Decimal(last));
    DecimalIsSnowflake(last);
    hide Escaped, Decimal, Value;
  }

  const FACE := '\U{1F600}'

  /** A workspace id of 256 characters outside it does not: its cursors are refused by the service that issued them. */
  lemma LongCursorIsRefused(channel: string, last: Id)
    requires last < ID_LIMIT
    ensures var scope := Scope(seq(256, _ => FACE), channel);
            IsWorkspaceId(scope.workspace) && DecodeCursor(EncodeCursor(scope, last), scope) == Err(InvalidCursor)
  {
    var scope := Scope(seq(256, _ => FACE), channel);
    EscapedLength(scope.workspace);
    FacesAreWorkspace(scope.workspace);
    LayoutLength();
    CursorExact(scope, scope, last);
    hide Escaped, EncodeCursor, DecodeCursor;
  }

  lemma FacesAreWorkspace(s: string)
    requires |s| == 256 && forall i | 0 <= i < |s| :: s[i] == FACE
    ensures IsWorkspaceId(s)
  {
    assert StripLeft(s) == s && StripRight(s) == s;
  }

  // ---------------------------------------------------------------- from page to page

  /** The cursor a result hands on: its last message's, or the request's own when the page is empty. */
  function NextCursor(scope: Scope, given: Option<string>, messages: seq<Id>): string {
    if messages != [] then EncodeCursor(scope, messages[|messages| - 1])
    else if given.None? then EncodeCursor(scope, 0)
    else given.value
  }

  /**
   The cursor a result hands on leads, in its own scope, to the last message returned, or to where the request already
   stood; without either to the beginning.
   */
  lemma CursorHandsOn(scope: Scope, given: Option<string>, at: Id, messages: seq<Id>)
    requires forall i | 0 <= i < |messages| :: messages[i] < ID_LIMIT && Fits(scope, messages[i])
    requires if given.None? then at == 0 && Fits(scope, 0) else DecodeCursor(given.value, scope) == Ok(at)
    ensures DecodeCursor(NextCursor(scope, given, messages), scope) ==
              Ok(if messages == [] then at else messages[|messages| - 1])
  {
    hide DecodeCursor, EncodeCursor, Fits;
    if messages != [] {
      CursorExact(scope, scope, messages[|messages| - 1]);
    } else if given.None? {
      CursorExact(scope, scope, 0);
    }
  }
}
