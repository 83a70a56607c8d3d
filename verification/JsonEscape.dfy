/** `json_escape`, against the string grammar of JSON (section 7 of RFC 8259). */
module JsonEscape {
  import opened Common

  function HexDigit(d: nat): char
    requires d < 16
  {
    "0123456789abcdef"[d]
  }

  /** What the code appends for one byte. */
  function EscapeChar(c: char): string {
    match c
    case '\"' => "\\\""
    case '\\' => "\\\\"
    case '\n' => "\\n"
    case '\r' => "\\r"
    case '\t' => "\\t"
    case '\U{0008}' => "\\b"
    case '\U{000C}' => "\\f"
    case _ =>
      if c as int < 0x20 then "\\u00" + [HexDigit(c as int / 16), HexDigit(c as int % 16)]
      else [c]
  }

  function Escape(s: string): string {
    if s == "" then "" else EscapeChar(s[0]) + Escape(s[1..])
  }

  method JsonEscape(s: string) returns (out: string)
    ensures out == Escape(s)
  {
    hide EscapeChar;
    out := "";
    for i := 0 to |s|
      invariant out + Escape(s[i..]) == Escape(s)
    {
      assert s[i..][1..] == s[i + 1..];
      assert out + (EscapeChar(s[i]) + Escape(s[i + 1..])) == (out + EscapeChar(s[i])) + Escape(s[i + 1..]);
      out := out + EscapeChar(s[i]);
    }
  }

  function HexValue(c: char): Option<nat> {
    if '0' <= c <= '9' then Some(c as int - '0' as int)
    else if 'a' <= c <= 'f' then Some(c as int - 'a' as int + 10)
    else if 'A' <= c <= 'F' then Some(c as int - 'A' as int + 10)
    else None
  }

  /** The code point of four hexadecimal digits. */
  function Hex4(s: string): Option<nat>
    requires |s| == 4
  {
    match (HexValue(s[0]), HexValue(s[1]), HexValue(s[2]), HexValue(s[3]))
    case (Some(a), Some(b), Some(c), Some(d)) => Some(((a * 16 + b) * 16 + c) * 16 + d)
    case _ => None
  }

  /** One character of the grammar at the front of `t`, and how long it is there: an
      unescaped one (not a control character, quote or backslash), or an escape.
      Code points beyond ASCII in \\u escapes are not decoded here. */
  function Unit(t: string): Option<(char, nat)>
    requires t != ""
  {
    if t[0] as int < 0x20 || t[0] == '\"' then None
    else if t[0] != '\\' then Some((t[0], 1))
    else if |t| < 2 then None
    else
      match t[1]
      case '\"' => Some(('\"', 2))
      case '\\' => Some(('\\', 2))
      case '/' => Some(('/', 2))
      case 'b' => Some(('\U{0008}', 2))
      case 'f' => Some(('\U{000C}', 2))
      case 'n' => Some(('\n', 2))
      case 'r' => Some(('\r', 2))
      case 't' => Some(('\t', 2))
      case 'u' =>
        if |t| < 6 then None
        else
          (match Hex4(t[2..6])
           case Some(n) => if n < 0x80 then Some((n as char, 6)) else None
           case None => None)
      case _ => None
  }

  /** Read a string after its opening quote: its characters, and what follows the
      closing quote. */
  function Scan(t: string): Option<(string, string)>
    decreases |t|
  {
    if t == "" then None
    else if t[0] == '\"' then Some(("", t[1..]))
    else
      match Unit(t)
      case None => None
      case Some((c, n)) =>
        if n > |t| || n == 0 then None
        else
          match Scan(t[n..])
          case None => None
          case Some((s, rest)) => Some(([c] + s, rest))
  }

  /** Quotes, backslashes and the five short forms; text that needs none of them stays. */
  lemma ShortForms(s: string)
    ensures Escape("\"") == "\\\"" && Escape("\\") == "\\\\" && Escape("\n") == "\\n" && Escape("\r") == "\\r"
    ensures Escape("\t") == "\\t" && Escape("\U{0008}") == "\\b" && Escape("\U{000C}") == "\\f"
    ensures (forall i | 0 <= i < |s| :: s[i] as int >= 0x20 && s[i] != '\"' && s[i] != '\\') ==> Escape(s) == s
  {
    OneEscaped('\"'); OneEscaped('\\'); OneEscaped('\n'); OneEscaped('\r');
    OneEscaped('\t'); OneEscaped('\U{0008}'); OneEscaped('\U{000C}');
    hide Escape;
    if forall i | 0 <= i < |s| :: s[i] as int >= 0x20 && s[i] != '\"' && s[i] != '\\' {
      PlainStays(s);
    }
  }

  lemma OneEscaped(c: char)
    ensures Escape([c]) == EscapeChar(c)
  {
    assert [c][1..] == "";
    assert Escape("") == "";
  }

  lemma {:induction false} PlainStays(s: string)
    requires forall i | 0 <= i < |s| :: s[i] as int >= 0x20 && s[i] != '\"' && s[i] != '\\'
    ensures Escape(s) == s
  {
    if s != "" { PlainStays(s[1..]); }
  }

  lemma EscapedUnit(c: char, t: string)
    ensures var e := EscapeChar(c); Unit(e + t) == Some((c, |e|)) && 0 < |e| && e[0] != '\"'
    ensures forall i | 0 <= i < |EscapeChar(c)| :: EscapeChar(c)[i] as int >= 0x20
  {
    var e := EscapeChar(c);
    if c as int < 0x20 && |e| == 6 {
      var hi, lo := c as int / 16, c as int % 16;
      assert (e + t)[2..6] == ['0', '0', HexDigit(hi), HexDigit(lo)];
      HexOfDigit(hi);
      HexOfDigit(lo);
    }
  }

  lemma HexOfDigit(d: nat)
    requires d < 16
    ensures HexValue(HexDigit(d)) == Some(d) && HexDigit(d) as int >= 0x20
  {
  }

  /** For every text and whatever follows: a JSON reader that enters the escaped text
      after a quote gets the text back and stops at the quote that closes it; no
      control character is left. */
  lemma {:induction false} EscapeIsUndone(s: string, rest: string)
    ensures Scan(Escape(s) + "\"" + rest) == Some((s, rest))
    ensures forall i | 0 <= i < |Escape(s)| :: Escape(s)[i] as int >= 0x20
  {
    hide EscapeChar, Unit, Scan;
    if s == "" {
      ScanEnds(rest);
      assert Escape(s) + "\"" + rest == "\"" + rest;
    } else {
      var e := EscapeChar(s[0]);
      var t := Escape(s[1..]) + "\"" + rest;
      EscapedUnit(s[0], t);
      EscapeIsUndone(s[1..], rest);
      assert Escape(s) + "\"" + rest == e + t;
      ScanStep(e, t, s[0], s[1..], rest);
      assert s == [s[0]] + s[1..];
    }
  }

  lemma ScanEnds(rest: string)
    ensures Scan("\"" + rest) == Some(("", rest))
  {
    assert ("\"" + rest)[1..] == rest;
  }

  lemma ScanStep(e: string, t: string, c: char, s: string, rest: string)
    requires 0 < |e| && e[0] != '\"' && Unit(e + t) == Some((c, |e|)) && Scan(t) == Some((s, rest))
    ensures Scan(e + t) == Some(([c] + s, rest))
  {
    hide Unit;
    assert (e + t)[|e|..] == t && (e + t)[0] == e[0];
  }
}
