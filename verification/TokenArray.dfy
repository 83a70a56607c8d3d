/** The token arrays of the server: printed by `handle_tokenize`, read back by
    `handle_detokenize`. */
module TokenArray {
  import opened Common
  import opened Text

  predicate IsInt(t: int) { -0x8000_0000 <= t < 0x8000_0000 }

  /** `std::to_string(int)`. */
  function IntText(t: int): string {
    if t < 0 then "-" + Decimal(-t) else Decimal(t)
  }

  /** The items, with commas between them. */
  function Items(ts: seq<int>): string {
    if ts == [] then ""
    else if |ts| == 1 then IntText(ts[0])
    else IntText(ts[0]) + "," + Items(ts[1..])
  }

  lemma {:induction false} ItemsAppend(ts: seq<int>, t: int)
    requires ts != []
    ensures Items(ts + [t]) == Items(ts) + "," + IntText(t)
  {
    hide IntText;
    assert (ts + [t])[1..] == ts[1..] + [t];
    if |ts| > 1 { ItemsAppend(ts[1..], t); }
  }

  /** The printing loop of `handle_tokenize`. */
  method PrintTokens(tokens: seq<int>) returns (response: string)
    ensures response == Response(tokens)
  {
    var arr := "[";
    for i := 0 to |tokens|
      invariant arr == "[" + Items(tokens[..i])
    {
      assert tokens[..i + 1] == tokens[..i] + [tokens[i]];
      if i > 0 {
        ItemsAppend(tokens[..i], tokens[i]);
        arr := arr + ",";
      }
      arr := arr + IntText(tokens[i]);
    }
    assert tokens[..|tokens|] == tokens;
    arr := arr + "]";
    response := "{\"tokens\":" + arr + "}";
  }

  function Response(ts: seq<int>): string {
    "{\"tokens\":" + ("[" + Items(ts) + "]") + "}"
  }

  // ----- Reading

  /** Repeated `std::getline(ss, item, ',')`. */
  function Split(s: string): (items: seq<string>)
    decreases |s|
  {
    if s == "" then []
    else
      match Find(s, ",", 0)
      case None => [s]
      case Some(p) => [s[..p]] + Split(s[p + 1..])
  }

  predicate IsSpace(c: char) { c == ' ' || c == '\t' || c == '\r' || c == '\n' }

  function TrimLeft(s: string): (r: string)
    ensures |r| <= |s| && (r != "" ==> !IsSpace(r[0]))
  {
    if s != "" && IsSpace(s[0]) then TrimLeft(s[1..]) else s
  }

  function TrimRight(s: string): (r: string)
    ensures |r| <= |s|
  {
    if s != "" && IsSpace(s[|s| - 1]) then TrimRight(s[..|s| - 1]) else s
  }

  /** The digits at the front of a string. */
  function Digits(s: string): (r: string)
    ensures forall i | 0 <= i < |r| :: IsDigit(r[i])
  {
    if s != "" && IsDigit(s[0]) then [s[0]] + Digits(s[1..]) else ""
  }

  /** What `std::stoi` itself skips in front: the white space of `isspace`, which has
      vertical tab and form feed besides the four characters trimmed before. */
  function SkipSpace(s: string): (r: string)
    ensures |r| <= |s| && (r != "" ==> !IsCSpace(r[0]))
  {
    if s != "" && IsCSpace(s[0]) then SkipSpace(s[1..]) else s
  }

  predicate IsCSpace(c: char) { IsSpace(c) || c == '\U{000B}' || c == '\U{000C}' }

  /** `std::stoi`: white space, sign, digits, and the rest ignored; no digits or a value
      beyond `int` throws. */
  function Stoi(s: string): Option<int> { SignedDigits(SkipSpace(s)) }

  function SignedDigits(s: string): Option<int> {
    var negative := s != "" && s[0] == '-';
    var signed := s != "" && (s[0] == '-' || s[0] == '+');
    var digits := Digits(if signed then s[1..] else s);
    if digits == "" then None
    else
      var v: int := Value(digits);
      var t := if negative then -v else v;
      if IsInt(t) then Some(t) else None
  }

  datatype Parsed = Tokens(ts: seq<int>) | BadToken

  /** The items in order: blank ones skipped, the first bad one refused. */
  function ReadItems(items: seq<string>): Parsed {
    if items == [] then Tokens([])
    else
      var item := TrimRight(TrimLeft(items[0]));
      if item == "" then ReadItems(items[1..])
      else
        match Stoi(item)
        case None => BadToken
        case Some(t) =>
          match ReadItems(items[1..])
          case BadToken => BadToken
          case Tokens(ts) => Tokens([t] + ts)
  }

  /** The text between the brackets after the key, if it is there. */
  function ArrayText(body: string): Option<string> {
    match Find(body, "\"tokens\"", 0)
    case None => None
    case Some(pos) =>
      match Find(body, "[", pos)
      case None => None
      case Some(start) =>
        match Find(body, "]", start)
        case None => None
        case Some(end) => Some(body[start + 1..end])
  }

  function ParseTokens(body: string): Parsed {
    match ArrayText(body)
    case None => Tokens([])
    case Some(arr) => ReadItems(Split(arr))
  }

  /** The reading loop of `handle_detokenize`. */
  method ReadTokens(body: string) returns (r: Parsed)
    ensures r == ParseTokens(body)
  {
    var arr := ArrayText(body);
    if arr.None? {
      return Tokens([]);
    }
    var rest := Split(arr.value);
    var tokens := [];
    while rest != []
      invariant ParseTokens(body) == (match ReadItems(rest)
                                      case BadToken => BadToken
                                      case Tokens(ts) => Tokens(tokens + ts))
      decreases |rest|
    {
      var item := TrimRight(TrimLeft(rest[0]));
      if item != "" {
        var t := Stoi(item);
        if t.None? {
          return BadToken;
        }
        assert forall ts: seq<int> :: tokens + ([t.value] + ts) == (tokens + [t.value]) + ts;
        tokens := tokens + [t.value];
      }
      rest := rest[1..];
    }
    r := Tokens(tokens);
  }

  // ----- The round trip

  predicate IsItemChar(c: char) { IsDigit(c) || c == '-' }

  lemma IntTextChars(t: int)
    ensures IntText(t) != "" && forall i | 0 <= i < |IntText(t)| :: IsItemChar(IntText(t)[i])
  {
  }

  lemma {:induction false} SkipSpaceOf(spaces: string, s: string)
    requires (forall i | 0 <= i < |spaces| :: IsCSpace(spaces[i])) && (s != "" ==> !IsCSpace(s[0]))
    ensures SkipSpace(spaces + s) == s
  {
    if spaces == "" {
      assert spaces + s == s;
    } else {
      assert (spaces + s)[1..] == spaces[1..] + s;
      SkipSpaceOf(spaces[1..], s);
    }
  }

  predicate NoDigitFirst(s: string) { s == "" || !('0' <= s[0] <= '9') }

  lemma {:induction false} DigitsThen(d: string, rest: string)
    requires (forall i | 0 <= i < |d| :: IsDigit(d[i])) && NoDigitFirst(rest)
    ensures Digits(d + rest) == d
  {
    if d == "" {
      assert d + rest == rest;
    } else {
      assert (d + rest)[1..] == d[1..] + rest;
      DigitsThen(d[1..], rest);
    }
  }

  /** Reading undoes printing on every `int`, whatever white space comes in front and whatever
      but a digit behind, and refuses every other integer. */
  lemma StoiOfIntText(spaces: string, t: int, rest: string)
    requires (forall i | 0 <= i < |spaces| :: IsCSpace(spaces[i])) && NoDigitFirst(rest)
    ensures Stoi(spaces + IntText(t) + rest) == if IsInt(t) then Some(t) else None
  {
    IntTextChars(t);
    var s := IntText(t) + rest;
    assert spaces + IntText(t) + rest == spaces + s && s[0] == IntText(t)[0];
    SkipSpaceOf(spaces, s);
    var d := Decimal(if t < 0 then -t else t);
    ValueOfDecimal(if t < 0 then -t else t);
    DigitsThen(d, rest);
    if t < 0 {
      assert s[1..] == d + rest;
    }
  }

  lemma TrimKeeps(s: string)
    requires s != "" && forall i | 0 <= i < |s| :: IsItemChar(s[i])
    ensures TrimRight(TrimLeft(s)) == s
  {
  }

  lemma {:induction false} ItemsChars(ts: seq<int>)
    ensures forall i | 0 <= i < |Items(ts)| :: IsItemChar(Items(ts)[i]) || Items(ts)[i] == ','
    ensures ts != [] ==> Items(ts) != ""
  {
    if ts != [] {
      IntTextChars(ts[0]);
      if |ts| > 1 { ItemsChars(ts[1..]); }
    }
  }

  lemma NoSingle(s: string, c: char, i: nat, n: nat)
    requires n <= |s| && forall j | i <= j < n :: s[j] != c
    ensures forall j | i <= j < n :: !OccursAt(s, [c], j)
  {
    forall j | i <= j < n
      ensures !OccursAt(s, [c], j)
    {
      if j + 1 <= |s| { assert s[j..j + 1] == [s[j]]; }
    }
  }

  /** Splitting at commas undoes the joining. */
  lemma SplitItems(ts: seq<int>)
    requires ts != []
    ensures Split(Items(ts)) == [IntText(ts[0])] + Split(Items(ts[1..]))
  {
    var s := Items(ts);
    var head := IntText(ts[0]);
    IntTextChars(ts[0]);
    if |ts| == 1 {
      NoSingle(s, ',', 0, |s|);
    } else {
      NoSingle(s, ',', 0, |head|);
      assert s[|head|..|head| + 1] == ",";
      FindIs(s, ",", 0, |head|);
      assert s[..|head|] == head && s[|head| + 1..] == Items(ts[1..]);
    }
  }

  lemma {:induction false} ReadItemsOfPrinted(ts: seq<int>)
    requires forall i | 0 <= i < |ts| :: IsInt(ts[i])
    ensures ReadItems(Split(Items(ts))) == Tokens(ts)
  {
    hide Split, Items, Stoi, IntText;
    if ts == [] {
      NothingPrinted();
    } else {
      SplitItems(ts);
      IntTextChars(ts[0]);
      StoiOfIntText("", ts[0], "");
      assert "" + IntText(ts[0]) + "" == IntText(ts[0]);
      TrimKeeps(IntText(ts[0]));
      ReadItemsOfPrinted(ts[1..]);
      assert ts == [ts[0]] + ts[1..];
    }
  }

  lemma NothingPrinted()
    ensures Split(Items([])) == []
  {
  }

  /** A body with the key first and one pair of brackets. */
  lemma ArrayTextBetween(body: string, s: string)
    requires body == "{\"tokens\":[" + s + "]}"
    requires forall i | 0 <= i < |s| :: s[i] != ']'
    ensures ArrayText(body) == Some(s)
  {
    hide Find, OccursAt;
    KeyFirst(body, s);
    assert body[10] == '[' && forall j | 1 <= j < 10 :: body[j] != '[';
    var end := 11 + |s|;
    assert body[end] == ']';
    forall j | 10 <= j < end
      ensures body[j] != ']'
    {
      if j > 10 { assert body[j] == s[j - 11]; }
    }
    FindChar(body, '[', 1, 10);
    FindChar(body, ']', 10, end);
    assert body[11..end] == s;
  }

  lemma KeyFirst(body: string, s: string)
    requires body == "{\"tokens\":[" + s + "]}"
    ensures Find(body, "\"tokens\"", 0) == Some(1)
  {
    assert body[1..9] == "\"tokens\"";
    assert body[0..8][0] == '{';
    FindIs(body, "\"tokens\"", 0, 1);
  }

  lemma FindChar(s: string, c: char, i: nat, p: nat)
    requires i <= p < |s| && s[p] == c && forall j | i <= j < p :: s[j] != c
    ensures Find(s, [c], i) == Some(p)
  {
    NoSingle(s, c, i, p);
    assert s[p..p + 1] == [c];
    FindIs(s, [c], i, p);
  }

  lemma ArrayTextOfPrinted(ts: seq<int>)
    ensures ArrayText(Response(ts)) == Some(Items(ts))
  {
    hide Items, ArrayText;
    ItemsChars(ts);
    ArrayTextBetween(Response(ts), Items(ts));
  }

  /** For every list of ints, what `/api/tokenize` answers is read by
      `/api/detokenize` as the very same list. */
  lemma TokenRoundTrip(ts: seq<int>)
    requires forall i | 0 <= i < |ts| :: IsInt(ts[i])
    ensures ParseTokens(Response(ts)) == Tokens(ts)
  {
    ArrayTextOfPrinted(ts);
    ReadItemsOfPrinted(ts);
  }

  /** A token beyond `int` is refused, not misread. */
  lemma OutOfRangeRefused(before: seq<int>, t: int, after: seq<int>)
    requires (forall i | 0 <= i < |before| :: IsInt(before[i])) && !IsInt(t)
    ensures ParseTokens(Response(before + [t] + after)) == BadToken
  {
    ArrayTextOfPrinted(before + [t] + after);
    RefusedAt(before, t, after);
  }

  lemma {:induction false} RefusedAt(before: seq<int>, t: int, after: seq<int>)
    requires (forall i | 0 <= i < |before| :: IsInt(before[i])) && !IsInt(t)
    ensures ReadItems(Split(Items(before + [t] + after))) == BadToken
    decreases |before|
  {
    hide Split, Items, Stoi, IntText;
    var ts := before + [t] + after;
    SplitItems(ts);
    IntTextChars(ts[0]);
    TrimKeeps(IntText(ts[0]));
    StoiOfIntText("", ts[0], "");
    assert "" + IntText(ts[0]) + "" == IntText(ts[0]);
    if before != [] {
      assert ts[1..] == before[1..] + [t] + after;
      RefusedAt(before[1..], t, after);
    }
  }

  // ----- Lists written by hand

  /** Between two commas: blanks only; a number with white space before it and anything but a
      digit after it; or something that begins with neither a number nor white space. */
  datatype Entry = Empty(blanks: string) | Number(left: string, t: int, rest: string) | Junk(left: string, text: string)

  predicate BlankText(s: string) {
    forall i | 0 <= i < |s| :: s[i] == ' ' || s[i] == '\t' || s[i] == '\r' || s[i] == '\n'
  }

  predicate SpaceText(s: string) {
    forall i | 0 <= i < |s| ::
      s[i] == ' ' || s[i] == '\t' || s[i] == '\r' || s[i] == '\n' || s[i] == '\U{000B}' || s[i] == '\U{000C}'
  }

  predicate Lacks(s: string, c: char) { forall i | 0 <= i < |s| :: s[i] != c }

  /** Begins with no white space and no number. */
  predicate NoNumber(s: string) {
    && s != "" && !SpaceText([s[0]]) && NoDigitFirst(s)
    && (s[0] == '-' || s[0] == '+' ==> NoDigitFirst(s[1..]))
  }

  predicate EntryOk(e: Entry) {
    Lacks(EntryText(e), ',') && Lacks(EntryText(e), ']')
    && match e
       case Empty(blanks) => BlankText(blanks)
       case Number(left, _, rest) => SpaceText(left) && NoDigitFirst(rest)
       case Junk(left, text) => SpaceText(left) && NoNumber(text)
  }

  function EntryText(e: Entry): string {
    match e
    case Empty(blanks) => blanks
    case Number(left, t, rest) => left + IntText(t) + rest
    case Junk(left, text) => left + text
  }

  /** A number beyond 32 bits, or none at all. */
  predicate BadEntry(e: Entry) { e.Junk? || (e.Number? && !(-2147483648 <= e.t <= 2147483647)) }

  function ListText(es: seq<Entry>): string {
    if es == [] then ""
    else if |es| == 1 then EntryText(es[0])
    else EntryText(es[0]) + "," + ListText(es[1..])
  }

  function Numbers(es: seq<Entry>): seq<int> {
    if es == [] then []
    else (if es[0].Number? then [es[0].t] else []) + Numbers(es[1..])
  }

  lemma {:induction false} TrimLeftOf(left: string, s: string) returns (l: string)
    requires SpaceText(left) && s != "" && !IsCSpace(s[0])
    ensures TrimLeft(left + s) == l + s && SpaceText(l)
  {
    if left == "" {
      l := "";
      assert left + s == s == l + s;
    } else if IsSpace(left[0]) {
      assert (left + s)[1..] == left[1..] + s;
      l := TrimLeftOf(left[1..], s);
    } else {
      l := left;
    }
  }

  lemma {:induction false} TrimRightOf(s: string, rest: string) returns (r: string)
    requires s != "" && !IsSpace(s[|s| - 1])
    ensures TrimRight(s + rest) == s + r && r <= rest
  {
    if rest == "" {
      r := "";
      assert s + rest == s == s + r;
    } else if IsSpace(rest[|rest| - 1]) {
      var n := |rest| - 1;
      assert (s + rest)[..|s| + n] == s + rest[..n];
      r := TrimRightOf(s, rest[..n]);
    } else {
      r := rest;
    }
  }

  lemma {:induction false} TrimBlanks(s: string)
    requires BlankText(s)
    ensures TrimLeft(s) == ""
  {
    if s != "" { TrimBlanks(s[1..]); }
  }

  /** What is left of an entry after trimming, and what its number is read as. */
  lemma TrimmedNumber(left: string, t: int, rest: string)
    requires SpaceText(left) && NoDigitFirst(rest)
    ensures var item := TrimRight(TrimLeft(left + IntText(t) + rest));
            item != "" && Stoi(item) == if IsInt(t) then Some(t) else None
  {
    IntTextChars(t);
    var x := IntText(t);
    assert IsItemChar(x[0]) && IsItemChar(x[|x| - 1]);
    assert left + x + rest == left + (x + rest) && (x + rest)[0] == x[0];
    hide TrimLeft, TrimRight, Stoi, IntText;
    var l := TrimLeftOf(left, x + rest);
    assert l + (x + rest) == (l + x) + rest;
    var r := TrimRightOf(l + x, rest);
    StoiOfIntText(l, t, r);
  }

  lemma TrimmedJunk(left: string, text: string)
    requires SpaceText(left) && NoNumber(text)
    ensures var item := TrimRight(TrimLeft(left + text)); item != "" && Stoi(item) == None
  {
    hide Stoi;
    var l := TrimLeftOf(left, text);
    var first := [text[0]];
    assert text == first + text[1..];
    assert l + text == (l + first) + text[1..];
    hide TrimLeft, TrimRight;
    var r := TrimRightOf(l + first, text[1..]);
    assert (l + first) + r == l + (first + r);
    assert r != "" ==> r[0] == text[1..][0];
    StoiOfJunk(l, text[0], r);
  }

  lemma StoiOfJunk(l: string, c: char, r: string)
    requires SpaceText(l) && !SpaceText([c]) && !('0' <= c <= '9') && (c == '-' || c == '+' ==> NoDigitFirst(r))
    ensures Stoi(l + ([c] + r)) == None
  {
    var s := [c] + r;
    assert [c][0] == c && s[0] == c && s[1..] == r;
    SkipSpaceOf(l, s);
  }

  lemma ReadEntry(e: Entry, items: seq<string>)
    requires EntryOk(e)
    ensures ReadItems([EntryText(e)] + items)
         == if BadEntry(e) then BadToken
            else match ReadItems(items)
                 case BadToken => BadToken
                 case Tokens(ts) => Tokens((if e.Number? then [e.t] else []) + ts)
  {
    var all := [EntryText(e)] + items;
    assert all[0] == EntryText(e) && all[1..] == items;
    hide TrimLeft, TrimRight, Stoi, IntText;
    match e
    case Empty(blanks) =>
      TrimBlanks(blanks);
      assert TrimRight("") == "";
    case Number(left, t, rest) => TrimmedNumber(left, t, rest);
    case Junk(left, text) => TrimmedJunk(left, text);
  }

  lemma SplitHead(head: string, tail: string)
    requires Lacks(head, ',')
    ensures Split(head + "," + tail) == [head] + Split(tail)
    ensures Split(head) == if head == "" then [] else [head]
  {
    var s := head + "," + tail;
    NoSingle(s, ',', 0, |head|);
    assert s[|head|..|head| + 1] == ",";
    FindIs(s, ",", 0, |head|);
    assert s[..|head|] == head && s[|head| + 1..] == tail;
    NoSingle(head, ',', 0, |head|);
  }

  lemma {:induction false} ListLacks(es: seq<Entry>)
    requires forall i | 0 <= i < |es| :: EntryOk(es[i])
    ensures Lacks(ListText(es), ']')
  {
    hide EntryText;
    if |es| > 1 { ListLacks(es[1..]); }
  }

  lemma NoTextIsEmpty(e: Entry)
    requires EntryText(e) == "" && EntryOk(e)
    ensures e.Empty?
  {
    if e.Number? { IntTextChars(e.t); }
  }

  ghost predicate AnyBad(es: seq<Entry>) { exists i :: 0 <= i < |es| && BadEntry(es[i]) }

  lemma AnyBadOf(es: seq<Entry>)
    requires es != []
    ensures AnyBad(es) <==> BadEntry(es[0]) || AnyBad(es[1..])
  {
    if i :| 0 <= i < |es| && BadEntry(es[i]) {
      if i > 0 { assert BadEntry(es[1..][i - 1]); }
    }
    if i :| 0 <= i < |es[1..]| && BadEntry(es[1..][i]) {
      assert BadEntry(es[i + 1]);
    }
  }

  lemma {:induction false} ReadList(es: seq<Entry>)
    requires forall i | 0 <= i < |es| :: EntryOk(es[i])
    ensures ReadItems(Split(ListText(es))) == if AnyBad(es) then BadToken else Tokens(Numbers(es))
  {
    hide EntryText, EntryOk, Split, BadEntry;
    if es == [] {
      NothingPrinted();
    } else {
      var e := es[0];
      AnyBadOf(es);
      EntryHasNoComma(e);
      if |es| == 1 {
        SplitHead(EntryText(e), "");
        NothingPrinted();
        ReadEntry(e, []);
        assert [EntryText(e)] + [] == [EntryText(e)];
        if EntryText(e) == "" { NoTextIsEmpty(e); }
      } else {
        SplitHead(EntryText(e), ListText(es[1..]));
        ReadEntry(e, Split(ListText(es[1..])));
        ReadList(es[1..]);
      }
    }
  }

  lemma EntryHasNoComma(e: Entry)
    requires EntryOk(e)
    ensures Lacks(EntryText(e), ',')
  {
  }

  /** The array of a body that has other fields before and after it. */
  lemma ArrayTextAnywhere(body: string, before: string, between: string, s: string, after: string)
    requires body == before + "\"tokens\"" + between + "[" + s + "]" + after
    requires forall j | 0 <= j < |before| :: !OccursAt(body, "\"tokens\"", j)
    requires Lacks(between, '[') && Lacks(s, ']')
    ensures ArrayText(body) == Some(s)
  {
    hide Find, OccursAt;
    var key := |before|;
    var start := key + 8 + |between|;
    var end := start + 1 + |s|;
    assert body[key..key + 8] == "\"tokens\"";
    assert OccursAt(body, "\"tokens\"", key) by { OccursHere(body, "\"tokens\"", key); }
    FindIs(body, "\"tokens\"", 0, key);
    forall j | key <= j < start
      ensures body[j] != '['
    {
      if j < key + 8 { assert body[j] == "\"tokens\""[j - key]; } else { assert body[j] == between[j - key - 8]; }
    }
    assert body[start] == '[';
    FindChar(body, '[', key, start);
    forall j | start <= j < end
      ensures body[j] != ']'
    {
      if j > start { assert body[j] == s[j - start - 1]; }
    }
    assert body[end] == ']';
    FindChar(body, ']', start, end);
    assert body[start + 1..end] == s;
  }

  lemma OccursHere(s: string, pat: string, i: nat)
    requires i + |pat| <= |s| && s[i..i + |pat|] == pat
    ensures OccursAt(s, pat, i)
  {
  }

  /** A list written by hand, wherever the body has it, is read as its numbers in order, with any
      white space before them, anything but digits after them and blank entries between them; it
      is refused exactly if some entry has no number or one beyond 32 bits. */
  lemma HandwrittenList(before: string, between: string, es: seq<Entry>, after: string)
    requires forall i | 0 <= i < |es| :: EntryOk(es[i])
    requires Lacks(between, '[')
    requires var body := before + "\"tokens\"" + between + "[" + ListText(es) + "]" + after;
             forall j | 0 <= j < |before| :: !OccursAt(body, "\"tokens\"", j)
    ensures ParseTokens(before + "\"tokens\"" + between + "[" + ListText(es) + "]" + after)
         == if AnyBad(es) then BadToken else Tokens(Numbers(es))
  {
    ListLacks(es);
    hide EntryOk, ListText, ArrayText, ReadItems, Split, OccursAt, Lacks;
    var body := before + "\"tokens\"" + between + "[" + ListText(es) + "]" + after;
    ArrayTextAnywhere(body, before, between, ListText(es), after);
    ReadList(es);
  }

  /** A body without the key, or without brackets behind it, holds no tokens. */
  lemma NoArrayIsNoTokens(body: string)
    ensures (forall j: nat :: !OccursAt(body, "\"tokens\"", j)) ==> ParseTokens(body) == Tokens([])
    ensures Lacks(body, '[') || Lacks(body, ']') ==> ParseTokens(body) == Tokens([])
  {
    if Lacks(body, '[') { NoSingle(body, '[', 0, |body|); }
    if Lacks(body, ']') { NoSingle(body, ']', 0, |body|); }
  }

  lemma KnownText(t: int, u: int, v: int)
    requires t == 65536 && u == -7 && v == 0
    ensures IntText(t) == "65536" && IntText(u) == "-7" && IntText(v) == "0"
  {
    OneDigit(6);
    OneDigit(7);
    OneDigit(0);
    NextDigit(6, 5);
    NextDigit(65, 5);
    NextDigit(655, 3);
    NextDigit(6553, 6);
    assert Decimal(t) == "6" + "5" + "5" + "3" + "6" == "65536";
    hide Decimal;
  }

  lemma OneDigit(d: nat)
    requires d < 10
    ensures Decimal(d) == [['0', '1', '2', '3', '4', '5', '6', '7', '8', '9'][d]]
  {
  }

  lemma NextDigit(n: nat, d: nat)
    requires n > 0 && d < 10
    ensures Decimal(10 * n + d) == Decimal(n) + [['0', '1', '2', '3', '4', '5', '6', '7', '8', '9'][d]]
  {
  }

  lemma ThreeItems(t: int, u: int, v: int)
    ensures Items([t, u, v]) == IntText(t) + "," + (IntText(u) + "," + IntText(v))
  {
    hide IntText;
    assert [t, u, v][1..] == [u, v] && [u, v][1..] == [v];
    assert Items([v]) == IntText(v);
    assert Items([u, v]) == IntText(u) + "," + IntText(v);
    assert IntText(u) + "," + IntText(v) == IntText(u) + ("," + IntText(v));
  }

  lemma Framed(ts: seq<int>, items: string)
    requires Items(ts) == items
    ensures Response(ts) == "{\"tokens\":[" + items + "]}"
  {
    assert "{\"tokens\":" + ("[" + items + "]") + "}" == "{\"tokens\":[" + items + "]}";
  }

  /** The response in full, for one list. */
  lemma KnownResponse(t: int, u: int, v: int)
    requires t == 65536 && u == -7 && v == 0
    ensures Response([t, u, v]) == "{\"tokens\":[65536,-7,0]}"
  {
    hide IntText, Items, Response;
    KnownText(t, u, v);
    ThreeItems(t, u, v);
    var items := Items([t, u, v]);
    assert items == "65536,-7,0";
    Framed([t, u, v], items);
    assert "{\"tokens\":[" + "65536,-7,0" + "]}" == "{\"tokens\":[65536,-7,0]}";
  }
}
