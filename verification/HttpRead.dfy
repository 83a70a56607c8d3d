/** Reading a request off a socket: `parse_content_length` and the receive loop of
    `handle_request`. */
module HttpRead {
  import opened Common
  import opened Text

  const NAME: string := "content-length:"
  const BLANK_LINE: string := "\r\n\r\n"
  const CAP: nat := 65536

  predicate IsBlank(c: char) { c == ' ' || c == '\t' }

  function SkipBlanks(s: string, pos: nat): (p: nat)
    requires pos <= |s|
    ensures pos <= p <= |s|
    decreases |s| - pos
  {
    if pos < |s| && IsBlank(s[pos]) then SkipBlanks(s, pos + 1) else pos
  }

  /** The digit loop from position pos with value v so far; -1 when no digit came. */
  function ScanDigits(s: string, pos: nat, v: nat, any: bool, maxBody: nat): int
    requires pos <= |s|
    decreases |s| - pos
  {
    if pos < |s| && IsDigit(s[pos]) then
      var v' := v * 10 + DigitValue(s[pos]);
      if v' > maxBody then v' else ScanDigits(s, pos + 1, v', true, maxBody)
    else if any then v else -1
  }

  function ParseContentLength(header: string, maxBody: nat): int {
    var lower := Lower(header);
    match Find(lower, NAME, 0)
    case None => 0
    case Some(pos) => ScanDigits(lower, SkipBlanks(lower, pos + 15), 0, false, maxBody)
  }

  /** `parse_content_length`, with its loops. */
  method ComputeContentLength(header: string, maxBody: nat) returns (r: int)
    ensures r == ParseContentLength(header, maxBody)
  {
    hide Find, Lower;
    var lower := Lower(header);
    var found := Find(lower, NAME, 0);
    if found.None? {
      return 0;
    }
    var pos := found.value + 15;
    while pos < |lower| && IsBlank(lower[pos])
      invariant pos <= |lower| && SkipBlanks(lower, pos) == SkipBlanks(lower, found.value + 15)
    {
      pos := pos + 1;
    }
    var v: nat, any := 0, false;
    while pos < |lower| && IsDigit(lower[pos])
      invariant pos <= |lower|
      invariant ScanDigits(lower, pos, v, any, maxBody) == ParseContentLength(header, maxBody)
    {
      any := true;
      v := v * 10 + DigitValue(lower[pos]);
      if v > maxBody {
        return v;
      }
      pos := pos + 1;
    }
    if !any {
      return -1;
    }
    return v;
  }

  // ----- Exactness of the parsed length

  lemma {:induction false} SkipsAllBlanks(s: string, pos: nat, end: nat)
    requires pos <= end <= |s| && (forall i | pos <= i < end :: IsBlank(s[i])) && (end < |s| ==> !IsBlank(s[end]))
    ensures SkipBlanks(s, pos) == end
    decreases end - pos
  {
    if pos < end { SkipsAllBlanks(s, pos + 1, end); }
  }

  lemma ValueStep(s: string, from: nat, pos: nat)
    requires from <= pos < |s| && forall i | from <= i <= pos :: IsDigit(s[i])
    ensures Value(s[from..pos + 1]) == 10 * Value(s[from..pos]) + DigitValue(s[pos])
  {
    assert s[from..pos + 1][..pos - from] == s[from..pos];
  }

  lemma {:induction false} ScansAllDigits(s: string, from: nat, pos: nat, end: nat, maxBody: nat)
    requires from <= pos <= end <= |s| && from < end
    requires (forall i | from <= i < end :: IsDigit(s[i])) && (end < |s| ==> !IsDigit(s[end]))
    requires pos > from ==> Value(s[from..pos]) <= maxBody
    ensures var r := ScanDigits(s, pos, Value(s[from..pos]), pos > from, maxBody);
            if Value(s[from..end]) <= maxBody then r == Value(s[from..end]) else r > maxBody
    decreases end - pos
  {
    if pos < end {
      ValueStep(s, from, pos);
      hide Value, DigitValue;
      assert Value(s[from..pos + 1]) <= Value(s[from..end]) by {
        ValuePrefix(s[from..end], pos + 1 - from);
        assert s[from..end][..pos + 1 - from] == s[from..pos + 1];
      }
      if Value(s[from..pos + 1]) <= maxBody {
        ScansAllDigits(s, from, pos + 1, end, maxBody);
      }
    }
  }

  lemma {:induction false} ValuePrefix(s: string, n: nat)
    requires (forall i | 0 <= i < |s| :: IsDigit(s[i])) && n <= |s|
    ensures Value(s[..n]) <= Value(s)
    decreases |s|
  {
    if n == |s| {
      assert s[..n] == s;
    } else {
      ValuePrefix(s[..|s| - 1], n);
      assert s[..|s| - 1][..n] == s[..n];
    }
  }

  function HeaderWith(before: string, name: string, blanks: string, n: nat, rest: string): string {
    before + name + blanks + Decimal(n) + rest
  }

  /** Where the parts of the lower-cased header lie. */
  lemma HeaderLayout(before: string, name: string, blanks: string, n: nat, rest: string)
    requires Lower(name) == NAME && forall i | 0 <= i < |blanks| :: IsBlank(blanks[i])
    ensures var lower := Lower(HeaderWith(before, name, blanks, n, rest));
            var at := |before| + 15;
            var from := at + |blanks|;
            var end := from + |Decimal(n)|;
            && end + |rest| == |lower|
            && OccursAt(lower, NAME, |before|)
            && (forall i | at <= i < from :: IsBlank(lower[i]))
            && lower[from..end] == Decimal(n)
            && (end < |lower| ==> lower[end] == LowerChar(rest[0]))
  {
    hide Decimal;
    var digits := Decimal(n);
    var header := HeaderWith(before, name, blanks, n, rest);
    var lower := Lower(header);
    var at := |before| + 15;
    var from := at + |blanks|;
    assert |name| == 15;
    assert header[|before|..at] == name;
    assert header[at..from] == blanks;
    assert header[from..from + |digits|] == digits;
    assert lower[|before|..at] == Lower(name);
    forall i | at <= i < from
      ensures IsBlank(lower[i])
    {
      assert header[i] == blanks[i - at];
    }
    assert lower[from..from + |digits|] == digits by {
      forall i | 0 <= i < |digits|
        ensures lower[from + i] == digits[i]
      {
        assert header[from + i] == digits[i];
      }
    }
    if rest != "" { assert header[from + |digits|] == rest[0]; }
  }

  /** The header's name, every letter of it as it stands here or as its capital. */
  predicate Spelled(s: string) {
    |s| == 15 && forall i | 0 <= i < 15 :: Matches(s[i], "content-length:"[i])
  }

  predicate Matches(c: char, n: char) { c == n || ('a' <= n <= 'z' && c as int == n as int - 32) }

  predicate NamedAt(header: string, j: nat) { j + 15 <= |header| && Spelled(header[j..j + 15]) }

  lemma LowerMatches(c: char, n: char)
    requires 'a' <= n <= 'z' || n == '-' || n == ':'
    ensures LowerChar(c) == n <==> Matches(c, n)
  {
  }

  lemma SpelledIff(s: string)
    ensures Lower(s) == NAME <==> Spelled(s)
  {
    hide LowerChar, Matches;
    if |s| == 15 {
      forall i | 0 <= i < 15
        ensures LowerChar(s[i]) == NAME[i] <==> Matches(s[i], NAME[i])
      {
        NameLetter(i);
        LowerMatches(s[i], NAME[i]);
      }
      if Lower(s) == NAME { assert forall i | 0 <= i < 15 :: Lower(s)[i] == NAME[i]; }
      if Spelled(s) { assert Lower(s) == NAME; }
    }
  }

  lemma NameLetter(i: nat)
    requires i < 15
    ensures 'a' <= NAME[i] <= 'z' || NAME[i] == '-' || NAME[i] == ':'
  {
  }

  lemma NamedIff(header: string, j: nat)
    ensures OccursAt(Lower(header), NAME, j) <==> NamedAt(header, j)
  {
    hide Spelled;
    if j + 15 <= |header| {
      SpelledIff(header[j..j + 15]);
      assert Lower(header)[j..j + 15] == Lower(header[j..j + 15]);
    }
  }

  predicate Blanks(s: string) { forall i | 0 <= i < |s| :: s[i] == ' ' || s[i] == '\t' }

  predicate StartsWithDigit(s: string) { s != "" && '0' <= s[0] <= '9' }

  lemma LiteralBlanks(s: string)
    requires Blanks(s)
    ensures forall i | 0 <= i < |s| :: IsBlank(s[i])
  {
  }

  /** A header named in any mixture of capitals, followed by any mixture of spaces and tabs and a
      decimal number, is read as exactly that number, or as more than the limit if the number is. */
  lemma ContentLengthExact(before: string, name: string, blanks: string, n: nat, rest: string, maxBody: nat)
    requires Spelled(name) && Blanks(blanks) && !StartsWithDigit(rest)
    requires forall j | 0 <= j < |before| :: !NamedAt(HeaderWith(before, name, blanks, n, rest), j)
    ensures var r := ParseContentLength(HeaderWith(before, name, blanks, n, rest), maxBody);
            if n <= maxBody then r == n else r > maxBody
  {
    SpelledIff(name);
    LiteralBlanks(blanks);
    hide Spelled, Lower, OccursAt, NamedAt, HeaderWith, ParseContentLength;
    forall j | 0 <= j < |before|
      ensures !OccursAt(Lower(HeaderWith(before, name, blanks, n, rest)), NAME, j)
    {
      NamedIff(HeaderWith(before, name, blanks, n, rest), j);
    }
    ParsedLength(before, name, blanks, n, rest, maxBody);
  }

  lemma ParsedLength(before: string, name: string, blanks: string, n: nat, rest: string, maxBody: nat)
    requires Lower(name) == NAME && (forall i | 0 <= i < |blanks| :: IsBlank(blanks[i]))
    requires rest != "" ==> !IsDigit(rest[0])
    requires forall j | 0 <= j < |before| :: !OccursAt(Lower(HeaderWith(before, name, blanks, n, rest)), NAME, j)
    ensures var r := ParseContentLength(HeaderWith(before, name, blanks, n, rest), maxBody);
            if n <= maxBody then r == n else r > maxBody
  {
    hide HeaderWith, Lower, OccursAt, Find, ScanDigits, SkipBlanks, Decimal;
    HeaderLayout(before, name, blanks, n, rest);
    var digits := Decimal(n);
    var lower := Lower(HeaderWith(before, name, blanks, n, rest));
    var at := |before| + 15;
    var from := at + |blanks|;
    var end := from + |digits|;
    FindIs(lower, NAME, 0, |before|);
    assert IsDigit(lower[from]) by { assert lower[from..end][0] == lower[from]; }
    SkipsAllBlanks(lower, at, from);
    forall i | from <= i < end
      ensures IsDigit(lower[i])
    {
      assert lower[from..end][i - from] == lower[i];
    }
    ScansAllDigits(lower, from, from, end, maxBody);
    assert lower[from..from] == "";
    ValueOfDecimal(n);
  }

  /** A header section that names no length declares none. */
  lemma NoLengthIsZero(header: string, maxBody: nat)
    requires forall j: nat :: !NamedAt(header, j)
    ensures ParseContentLength(header, maxBody) == 0
  {
    hide NamedAt, Lower, OccursAt;
    forall j: nat
      ensures !OccursAt(Lower(header), NAME, j)
    {
      NamedIff(header, j);
    }
  }

  /** The name, and after the blanks no digit: malformed. */
  lemma NoDigitsIsMalformed(before: string, name: string, blanks: string, rest: string, maxBody: nat)
    requires Spelled(name) && Blanks(blanks) && !StartsWithDigit(rest)
    requires rest != "" ==> rest[0] != ' ' && rest[0] != '\t'
    requires forall j | 0 <= j < |before| :: !NamedAt(before + name + blanks + rest, j)
    ensures ParseContentLength(before + name + blanks + rest, maxBody) == -1
  {
    var header := before + name + blanks + rest;
    var at := |before| + 15;
    var from := at + |blanks|;
    assert header[|before|..at] == name && header[at..from] == blanks && header[from..] == rest;
    FirstNamed(header, |before|);
    var lower := Lower(header);
    forall i | at <= i < from
      ensures IsBlank(lower[i])
    {
      assert header[i] == blanks[i - at];
    }
    assert from < |header| ==> header[from] == rest[0];
    hide Find, OccursAt, Spelled, NamedAt;
    SkipsAllBlanks(lower, at, from);
  }

  lemma FirstNamed(header: string, p: nat)
    requires NamedAt(header, p) && forall j | 0 <= j < p :: !NamedAt(header, j)
    ensures Find(Lower(header), NAME, 0) == Some(p)
  {
    hide NamedAt, Lower, OccursAt, Find;
    forall j | 0 <= j <= p
      ensures OccursAt(Lower(header), NAME, j) <==> NamedAt(header, j)
    {
      NamedIff(header, j);
    }
    FindIs(Lower(header), NAME, 0, p);
  }

  // ----- The receive loop

  datatype Outcome = Got(raw: string) | Malformed | TooLarge

  /** What one look at the bytes so far decides; `None` is to read on. */
  function Look(raw: string): Option<Outcome> {
    match Find(raw, BLANK_LINE, 0)
    case Some(hend) =>
      var cl := ParseContentLength(raw[..hend], CAP);
      var have := |raw| - hend - 4;
      if cl < 0 then Some(Malformed)
      else if cl > CAP || have + 4 > CAP then Some(TooLarge)
      else if have >= cl then Some(Got(raw))
      else None
    case None =>
      if |raw| >= CAP then Some(TooLarge) else None
  }

  /** The loop: `chunks` are what the remaining calls of `recv` deliver. */
  function Read(raw: string, chunks: seq<string>): Outcome
    decreases |chunks|
  {
    if |raw| >= CAP || chunks == [] then Got(raw)
    else
      match Look(raw + chunks[0])
      case Some(o) => o
      case None => Read(raw + chunks[0], chunks[1..])
  }

  method ReadRequest(chunks: seq<string>) returns (o: Outcome)
    ensures o == Read("", chunks)
  {
    var raw := "";
    var next := 0;
    while |raw| < CAP
      invariant next <= |chunks| && Read(raw, chunks[next..]) == Read("", chunks)
      decreases |chunks| - next
    {
      if next == |chunks| {
        break;
      }
      assert chunks[next..][1..] == chunks[next + 1..];
      raw := raw + chunks[next];
      next := next + 1;
      var hend := Find(raw, BLANK_LINE, 0);
      if hend.Some? {
        var cl := ComputeContentLength(raw[..hend.value], CAP);
        if cl < 0 {
          return Malformed;
        }
        var have := |raw| - hend.value - 4;
        if cl > CAP || have + 4 > CAP {
          return TooLarge;
        }
        if have >= cl {
          break;
        }
      } else if |raw| >= CAP {
        return TooLarge;
      }
    }
    o := Got(raw);
  }

  // ----- Whatever the segmentation

  function Join(chunks: seq<string>): string {
    if chunks == [] then "" else chunks[0] + Join(chunks[1..])
  }

  /** What every chunk of a stream can be: one to 4096 bytes. */
  predicate Received(chunks: seq<string>) {
    forall i | 0 <= i < |chunks| :: 0 < |chunks[i]| <= 4096
  }

  /** The stream's first header section ends at `hend` and declares a body of
      `cl` bytes (-1 if malformed). */
  ghost predicate Declares(m: string, hend: nat, cl: int) {
    Find(m, BLANK_LINE, 0) == Some(hend) && ParseContentLength(m[..hend], CAP) == cl
  }

  /** What a look at a prefix of the stream decides. */
  lemma LookAtPrefix(m: string, hend: nat, cl: int, n: nat)
    requires Declares(m, hend, cl) && n <= |m|
    ensures Look(m[..n]) ==
            if n < hend + 4 then (if n >= CAP then Some(TooLarge) else None)
            else if cl < 0 then Some(Malformed)
            else if cl > CAP || n - hend > CAP then Some(TooLarge)
            else if n - hend - 4 >= cl then Some(Got(m[..n]))
            else None
  {
    hide Find, ParseContentLength;
    FindInPrefix(m, BLANK_LINE, n, hend);
    if hend + 4 <= n {
      assert m[..n][..hend] == m[..hend];
    }
  }

  lemma NextPrefix(m: string, raw: string, first: seq<string>)
    requires first != [] && raw + Join(first) == m
    ensures var n := |raw| + |first[0]|;
            n <= |m| && raw + first[0] == m[..n] && m[..n] + Join(first[1..]) == m
  {
    assert m == raw + (first[0] + Join(first[1..]));
    assert m == (raw + first[0]) + Join(first[1..]);
  }

  lemma {:induction false} ReadsOn(m: string, hend: nat, raw: string, first: seq<string>, later: seq<string>)
    requires Declares(m, hend, |m| - hend - 4) && |m| <= CAP
    requires raw + Join(first) == m && |raw| < |m|
    ensures Read(raw, first + later) == Got(m)
    decreases |first|
  {
    hide Look;
    assert first != [];
    NextPrefix(m, raw, first);
    var n := |raw| + |first[0]|;
    LookAtPrefix(m, hend, |m| - hend - 4, n);
    assert (first + later)[1..] == first[1..] + later && (first + later)[0] == first[0];
    if n < |m| {
      ReadsOn(m, hend, m[..n], first[1..], later);
    } else {
      assert m[..n] == m;
    }
  }

  /** A message of at most 64 KB whose header section declares exactly its body is
      read whole, however it was cut into segments and whatever follows it in later
      segments. */
  lemma ReassemblyIsExact(m: string, hend: nat, first: seq<string>, later: seq<string>)
    requires Declares(m, hend, |m| - hend - 4) && |m| <= CAP && Join(first) == m
    ensures Read("", first + later) == Got(m)
  {
    ReadsOn(m, hend, "", first, later);
  }

  /** The header section ends at the first blank line. */
  lemma HeaderEnds(header: string, body: string)
    requires forall j | 0 <= j < |header| :: !OccursAt(header + "\r\n\r\n" + body, "\r\n\r\n", j)
    ensures Find(header + "\r\n\r\n" + body, BLANK_LINE, 0) == Some(|header|)
    ensures (header + "\r\n\r\n" + body)[..|header|] == header
  {
    var m := header + "\r\n\r\n" + body;
    assert m[|header|..|header| + 4] == "\r\n\r\n";
    FindIs(m, BLANK_LINE, 0, |header|);
  }

  /** A request whose Content-Length, in any letter case and after any spaces and tabs, is the
      length of its body: with at most 64 KB in all it is read whole under every segmentation,
      whatever the other header lines say and whatever follows it. */
  lemma DeclaredMessageIsRead(before: string, name: string, blanks: string, rest: string, body: string,
                              first: seq<string>, later: seq<string>)
    requires Spelled(name) && Blanks(blanks) && !StartsWithDigit(rest)
    requires var header := HeaderWith(before, name, blanks, |body|, rest);
             var m := header + "\r\n\r\n" + body;
             && (forall j | 0 <= j < |before| :: !NamedAt(header, j))
             && (forall j | 0 <= j < |header| :: !OccursAt(m, "\r\n\r\n", j))
             && |m| <= 65536 && Join(first) == m
    ensures Read("", first + later) == Got(HeaderWith(before, name, blanks, |body|, rest) + "\r\n\r\n" + body)
  {
    hide HeaderWith, Spelled, NamedAt, OccursAt, Find, ParseContentLength, Read, Join;
    var header := HeaderWith(before, name, blanks, |body|, rest);
    HeaderEnds(header, body);
    ContentLengthExact(before, name, blanks, |body|, rest, CAP);
    ReassemblyIsExact(header + "\r\n\r\n" + body, |header|, first, later);
  }

  /** A request without a body and without a length, as a GET is, is read whole. */
  lemma BodylessMessageIsRead(header: string, first: seq<string>, later: seq<string>)
    requires forall j: nat :: !NamedAt(header, j)
    requires forall j | 0 <= j < |header| :: !OccursAt(header + "\r\n\r\n", "\r\n\r\n", j)
    requires |header| + 4 <= 65536 && Join(first) == header + "\r\n\r\n"
    ensures Read("", first + later) == Got(header + "\r\n\r\n")
  {
    hide NamedAt, OccursAt, Find, ParseContentLength, Read, Join;
    assert header + "\r\n\r\n" + "" == header + "\r\n\r\n";
    HeaderEnds(header, "");
    NoLengthIsZero(header, CAP);
    ReassemblyIsExact(header + "\r\n\r\n", |header|, first, later);
  }

  /** A length without digits is answered as malformed under every segmentation, whatever
      comes after the header section. */
  lemma LengthWithoutDigitsIsRefused(before: string, name: string, blanks: string, rest: string, more: string,
                                     chunks: seq<string>)
    requires Spelled(name) && Blanks(blanks) && !StartsWithDigit(rest)
    requires rest != "" ==> rest[0] != ' ' && rest[0] != '\t'
    requires var header := before + name + blanks + rest;
             var m := header + "\r\n\r\n" + more;
             && (forall j | 0 <= j < |before| :: !NamedAt(header, j))
             && (forall j | 0 <= j < |header| :: !OccursAt(m, "\r\n\r\n", j))
             && |header| + 4 <= 65536 && Join(chunks) == m
    ensures Read("", chunks) == Malformed
  {
    hide Spelled, NamedAt, OccursAt, Find, ParseContentLength, Read, Join;
    var header := before + name + blanks + rest;
    HeaderEnds(header, more);
    NoDigitsIsMalformed(before, name, blanks, rest, CAP);
    RefusalIsIndependent(header + "\r\n\r\n" + more, |header|, -1, chunks);
  }

  lemma {:induction false} EndsWithin(m: string, hend: nat, n: nat, raw: string, chunks: seq<string>)
    requires Declares(m, hend, |m| - hend - 4) && |m| <= CAP && n < |m|
    requires raw + Join(chunks) == m[..n]
    ensures Read(raw, chunks) == Got(m[..n])
    decreases |chunks|
  {
    hide Look;
    if chunks == [] {
      assert raw + "" == raw;
    } else {
      NextPrefix(m[..n], raw, chunks);
      var k := |raw| + |chunks[0]|;
      assert m[..n][..k] == m[..k];
      LookAtPrefix(m, hend, |m| - hend - 4, k);
      EndsWithin(m, hend, n, m[..k], chunks[1..]);
    }
  }

  /** A stream that ends before the message does is passed on as what arrived of it. */
  lemma TruncatedIsPassedOn(m: string, hend: nat, n: nat, chunks: seq<string>)
    requires Declares(m, hend, |m| - hend - 4) && |m| <= CAP && n < |m| && Join(chunks) == m[..n]
    ensures Read("", chunks) == Got(m[..n])
  {
    EndsWithin(m, hend, n, "", chunks);
  }

  lemma {:induction false} NeverEndsFrom(m: string, raw: string, chunks: seq<string>)
    requires (forall j: nat :: !OccursAt(m, BLANK_LINE, j)) && raw + Join(chunks) == m && |raw| < CAP
    ensures Read(raw, chunks) == if |m| < CAP then Got(m) else TooLarge
    decreases |chunks|
  {
    hide OccursAt, Find;
    if chunks == [] {
      assert raw + "" == raw;
    } else {
      NextPrefix(m, raw, chunks);
      var k := |raw| + |chunks[0]|;
      forall j: nat
        ensures !OccursAt(m[..k], BLANK_LINE, j)
      {
        OccursInPrefix(m, BLANK_LINE, k, j);
      }
      if k < CAP { NeverEndsFrom(m, m[..k], chunks[1..]); }
    }
  }

  /** A stream without a blank line is passed on if it ends below 64 KB, and refused if not. */
  lemma HeaderWithoutEnd(chunks: seq<string>)
    requires forall j: nat :: !OccursAt(Join(chunks), "\r\n\r\n", j)
    ensures Read("", chunks) == if |Join(chunks)| < 65536 then Got(Join(chunks)) else TooLarge
  {
    NeverEndsFrom(Join(chunks), "", chunks);
  }

  lemma {:induction false} Refused(m: string, hend: nat, cl: int, raw: string, chunks: seq<string>)
    requires Declares(m, hend, cl) && hend + 4 <= CAP && (cl < 0 || cl > CAP)
    requires raw + Join(chunks) == m && |raw| < hend + 4
    ensures Read(raw, chunks) == if cl < 0 then Malformed else TooLarge
    decreases |chunks|
  {
    hide Look;
    assert chunks != [];
    NextPrefix(m, raw, chunks);
    var n := |raw| + |chunks[0]|;
    LookAtPrefix(m, hend, cl, n);
    if n < hend + 4 {
      Refused(m, hend, cl, m[..n], chunks[1..]);
    }
  }

  /** A malformed or oversized length is refused as such under every segmentation. */
  lemma RefusalIsIndependent(m: string, hend: nat, cl: int, chunks: seq<string>)
    requires Declares(m, hend, cl) && hend + 4 <= CAP && (cl < 0 || cl > CAP) && Join(chunks) == m
    ensures Read("", chunks) == if cl < 0 then Malformed else TooLarge
  {
    Refused(m, hend, cl, "", chunks);
  }

  // ----- Exactly up to the cap

  /** The message in segments of 4096 bytes, as far as that goes. */
  function Blocks(m: string): (chunks: seq<string>)
    ensures Received(chunks) && Join(chunks) == m
  {
    if m == "" then []
    else
      var n := if |m| < 4096 then |m| else 4096;
      assert m == m[..n] + m[n..];
      [m[..n]] + Blocks(m[n..])
  }

  lemma LookGetsItsBytes(raw: string)
    ensures Look(raw).Some? && Look(raw).value.Got? ==> Look(raw).value.raw == raw
  {
  }

  lemma {:induction false} BlocksStopAtCap(raw: string, m: string)
    requires |raw| % 4096 == 0 && |raw| <= CAP
    ensures var o := Read(raw, Blocks(m)); o.Got? ==> |o.raw| <= CAP
    decreases |m|
  {
    if |raw| < CAP && m != "" {
      var n := if |m| < 4096 then |m| else 4096;
      assert Blocks(m)[0] == m[..n] && Blocks(m)[1..] == Blocks(m[n..]);
      LookGetsItsBytes(raw + m[..n]);
      hide Look;
      if Look(raw + m[..n]).None? {
        if n == 4096 {
          BlocksStopAtCap(raw + m[..n], m[n..]);
        }
      }
    }
  }

  ghost predicate ReadWholeUnderEverySplit(m: string) {
    forall chunks | Received(chunks) && Join(chunks) == m :: Read("", chunks) == Got(m)
  }

  /** Among messages that declare exactly their body, those read whole under every
      segmentation are the ones within the 64 KB cap. */
  lemma WholeIffWithinCap(m: string, hend: nat)
    requires Declares(m, hend, |m| - hend - 4)
    ensures ReadWholeUnderEverySplit(m) <==> |m| <= CAP
  {
    if |m| <= CAP {
      forall chunks | Received(chunks) && Join(chunks) == m
        ensures Read("", chunks) == Got(m)
      {
        ReassemblyIsExact(m, hend, chunks, []);
        assert chunks + [] == chunks;
      }
    } else {
      BlocksStopAtCap("", m);
      assert Read("", Blocks(m)) != Got(m);
    }
  }

  // ----- Beyond the cap

  /** `m` declares exactly its body and is longer than the cap. */
  ghost predicate Oversized(m: string, hend: nat) {
    Declares(m, hend, |m| - hend - 4) && |m| > CAP
  }

  /** While header section and body each stay within the cap, a message cut into full
      segments is passed on cut off at 64 KB, as if it were complete. */
  lemma CutOffAtCap(m: string, hend: nat)
    requires Oversized(m, hend) && hend + 4 <= CAP && |m| - hend - 4 <= CAP
    ensures Read("", Blocks(m)) == Got(m[..CAP])
  {
    assert m[..0] == "" && m[0..] == m;
    CutOffFrom(m, hend, 0);
  }

  lemma {:induction false} CutOffFrom(m: string, hend: nat, n: nat)
    requires Oversized(m, hend) && hend + 4 <= CAP && |m| - hend - 4 <= CAP
    requires n <= CAP && n % 4096 == 0
    ensures Read(m[..n], Blocks(m[n..])) == Got(m[..CAP])
    decreases CAP - n
  {
    hide Look;
    if n < CAP {
      var n' := n + 4096;
      LookAtPrefix(m, hend, |m| - hend - 4, n');
      assert m[n..][..4096] == m[n..n'] && m[n..][4096..] == m[n'..];
      assert m[..n] + m[n..n'] == m[..n'];
      CutOffFrom(m, hend, n');
    }
  }

  ghost predicate RefusedUnderEverySplit(m: string) {
    forall chunks | Received(chunks) && Join(chunks) == m :: Read("", chunks) == TooLarge
  }

  /** What the comment on the receive loop announces for every message beyond 64 KB,
      a refusal with 413, comes under every segmentation exactly if the declared body
      alone exceeds the cap, or the header section does by more than one segment can
      pass over. */
  lemma RefusedIff(m: string, hend: nat)
    requires Oversized(m, hend)
    ensures RefusedUnderEverySplit(m) <==> |m| - hend - 4 > CAP || hend + 4 > CAP + 4095
  {
    var cl := |m| - hend - 4;
    if cl > CAP || hend + 4 > CAP + 4095 {
      forall chunks | Received(chunks) && Join(chunks) == m
        ensures Read("", chunks) == TooLarge
      {
        RefusedFrom(m, hend, "", chunks);
      }
    } else if hend + 4 <= CAP {
      CutOffAtCap(m, hend);
      assert Read("", Blocks(m)) != TooLarge;
    } else {
      HeaderPassesOver(m, hend);
    }
  }

  lemma {:induction false} RefusedFrom(m: string, hend: nat, raw: string, chunks: seq<string>)
    requires Oversized(m, hend) && (|m| - hend - 4 > CAP || hend + 4 > CAP + 4095)
    requires Received(chunks) && raw + Join(chunks) == m && |raw| < CAP && |raw| < hend + 4
    ensures Read(raw, chunks) == TooLarge
    decreases |chunks|
  {
    hide Look;
    assert chunks != [];
    NextPrefix(m, raw, chunks);
    var n := |raw| + |chunks[0]|;
    LookAtPrefix(m, hend, |m| - hend - 4, n);
    if n < hend + 4 && n < CAP {
      RefusedFrom(m, hend, m[..n], chunks[1..]);
    }
  }

  lemma {:induction false} ReadsPast(m: string, hend: nat, raw: string, first: seq<string>, later: seq<string>, k: nat)
    requires Declares(m, hend, |m| - hend - 4) && k < CAP && k < hend + 4 && k <= |m|
    requires raw + Join(first) == m[..k]
    ensures Read(raw, first + later) == Read(m[..k], later)
    decreases |first|
  {
    hide Look;
    if first == [] {
      assert first + later == later && raw + "" == raw;
    } else {
      NextPrefix(m[..k], raw, first);
      var n := |raw| + |first[0]|;
      assert m[..k][..n] == m[..n];
      LookAtPrefix(m, hend, |m| - hend - 4, n);
      assert (first + later)[1..] == first[1..] + later && (first + later)[0] == first[0];
      ReadsPast(m, hend, m[..n], first[1..], later, k);
    }
  }

  lemma {:induction false} JoinAppend(a: seq<string>, b: seq<string>)
    ensures Join(a + b) == Join(a) + Join(b)
  {
    if a == [] {
      assert a + b == b;
    } else {
      assert (a + b)[1..] == a[1..] + b;
      JoinAppend(a[1..], b);
    }
  }

  lemma OneSegmentPast(m: string, hend: nat, k: nat, e: nat, later: seq<string>)
    requires Oversized(m, hend) && |m| - hend - 4 <= CAP
    requires k < CAP && k < e && CAP < e == hend + 4
    ensures Read(m[..k], [m[k..e]] + later) == Got(m[..e])
  {
    hide Look;
    LookAtPrefix(m, hend, |m| - hend - 4, e);
    assert m[..k] + m[k..e] == m[..e];
    assert ([m[k..e]] + later)[0] == m[k..e] && ([m[k..e]] + later)[1..] == later;
  }

  lemma JoinFirst(c: string, rest: seq<string>)
    ensures Join([c] + rest) == c + Join(rest)
  {
    assert ([c] + rest)[1..] == rest;
  }

  lemma ReceivedInThree(m: string, k: nat, e: nat)
    requires k < e <= |m| && e - k <= 4096
    ensures var chunks := Blocks(m[..k]) + ([m[k..e]] + Blocks(m[e..])); Received(chunks) && Join(chunks) == m
  {
    hide Blocks;
    JoinAppend(Blocks(m[..k]), [m[k..e]] + Blocks(m[e..]));
    JoinFirst(m[k..e], Blocks(m[e..]));
    hide Join;
    assert m[..k] + (m[k..e] + m[e..]) == m;
  }

  /** One byte short of the cap, then on to the end of the header section in one segment. */
  lemma HeaderPassesOver(m: string, hend: nat)
    requires Oversized(m, hend) && |m| - hend - 4 <= CAP && CAP < hend + 4 <= CAP + 4095
    ensures !RefusedUnderEverySplit(m)
  {
    hide Read, Blocks;
    var k, e: nat := CAP - 1, hend + 4;
    var later := [m[k..e]] + Blocks(m[e..]);
    assert "" + m[..k] == m[..k];
    ReadsPast(m, hend, "", Blocks(m[..k]), later, k);
    OneSegmentPast(m, hend, k, e, Blocks(m[e..]));
    ReceivedInThree(m, k, e);
    assert Read("", Blocks(m[..k]) + later) != TooLarge;
  }

  // ----- One such message

  const FULL_HEADER: string := "content-length:" + "65536"

  /** A body of 64 KB with its header in front. */
  function FullBody(): (m: string)
    ensures |m| == 24 + CAP
  {
    FULL_HEADER + BLANK_LINE + seq(CAP, _ => 'x')
  }

  lemma FullBodyDeclares()
    ensures Oversized(FullBody(), 20)
  {
    var m := FullBody();
    hide Find, ParseContentLength;
    assert m[20..24] == BLANK_LINE;
    forall j | 0 <= j < 20
      ensures !OccursAt(m, BLANK_LINE, j)
    {
      assert m[j] == FULL_HEADER[j] != '\r';
      assert m[j..j + 4][0] == m[j];
    }
    FindIs(m, BLANK_LINE, 0, 20);
    assert m[..20] == FULL_HEADER;
    SixtyFourK();
    assert HeaderWith("", NAME, "", CAP, "") == FULL_HEADER;
    assert Spelled(NAME);
    ContentLengthExact("", NAME, "", CAP, "", CAP);
  }

  lemma SixtyFourK()
    ensures Decimal(65536) == "65536"
  {
    assert Decimal(655) == "655";
    assert Decimal(6553) == "6553";
  }

  /** Refused neither in full segments nor read whole: the last 24 bytes are dropped and
      the rest is passed on. */
  lemma FullBodyIsCutOff()
    ensures Read("", Blocks(FullBody())) == Got(FullBody()[..CAP])
    ensures |FullBody()| == CAP + 24
  {
    FullBodyDeclares();
    CutOffAtCap(FullBody(), 20);
  }
}
