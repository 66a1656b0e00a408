/** Strings as they are quoted in item strings: read back as they were, whatever bytes they hold. */
module JsonStrings {
  import opened Options

  ghost predicate Bytes(s: string) {
    forall i :: 0 <= i < |s| ==> s[i] as int < 256
  }

  /** The letter that stands for a character in an escape of its own, if it has one. */
  function Letter(c: char): Option<char> {
    if c == '"' then Some('"')
    else if c == '\\' then Some('\\')
    else if c as int == 8 then Some('b')
    else if c as int == 12 then Some('f')
    else if c == '\n' then Some('n')
    else if c == '\r' then Some('r')
    else if c == '\t' then Some('t')
    else None
  }

  /** What stands for the letter of an escape: a control character, or itself. */
  function Meant(letter: char): char {
    if letter == 'b' then 8 as char
    else if letter == 'f' then 12 as char
    else if letter == 'n' then '\n'
    else if letter == 'r' then '\r'
    else if letter == 't' then '\t'
    else letter
  }

  function Position(s: string, c: char): (n: nat)
    ensures n <= |s| && (n < |s| ==> s[n] == c) && c !in s[..n]
  {
    if s == "" || s[0] == c then 0
    else
      var n := 1 + Position(s[1..], c);
      assert s[..n] == [s[0]] + s[1..][..n - 1];
      n
  }

  const HEX := "0123456789abcdef"

  function Escape(c: char): string
    requires c as int < 256
  {
    if Letter(c).Some? then ['\\', Letter(c).value]
    else if 32 <= c as int <= 126 then [c]
    else ['\\', 'u', '0', '0', HEX[c as int / 16], HEX[c as int % 16]]
  }

  function EscapeAll(s: string): string
    requires Bytes(s)
  {
    if s == "" then "" else Escape(s[0]) + EscapeAll(s[1..])
  }

  /** serializeJsonString. */
  function Quote(s: string): string
    requires Bytes(s)
  {
    "\"" + EscapeAll(s) + "\""
  }

  predicate Plain(c: char) { 0x1f < c as int < 0x7f && c != ' ' && c != '"' }

  /** serializeJsonStringIfNeeded. */
  function QuoteIfNeeded(s: string): string
    requires Bytes(s)
  {
    if exists i :: 0 <= i < |s| && !Plain(s[i]) then Quote(s) else s
  }

  /** Where the closing quote is; a backslash shields the character behind it. */
  function QuoteEnd(s: string, shielded: bool): (r: Option<nat>)
    ensures r.Some? ==> r.value < |s| && s[r.value] == '"'
  {
    if s == "" then None
    else if !shielded && s[0] == '"' then Some(0)
    else
      match QuoteEnd(s[1..], !shielded && s[0] == '\\')
      case None => None
      case Some(n) => Some(n + 1)
  }

  function HexValue(c: char): (v: nat)
    ensures v < 16
  {
    if '0' <= c <= '9' then c as int - '0' as int
    else if 'a' <= c <= 'f' then c as int - 'a' as int + 10
    else if 'A' <= c <= 'F' then c as int - 'A' as int + 10
    else 0
  }

  function Prepend(c: char, s: Option<string>): Option<string> {
    match s case None => None case Some(t) => Some([c] + t)
  }

  /** The text between the quotes, decoded; None if it ends within an escape. */
  function Unescape(s: string): Option<string>
    decreases |s|
  {
    if s == "" then Some("")
    else if s[0] != '\\' then Prepend(s[0], Unescape(s[1..]))
    else if |s| == 1 then None
    else if s[1] != 'u' then Prepend(Meant(s[1]), Unescape(s[2..]))
    else if |s| < 6 then None
    else Prepend((HexValue(s[4]) * 16 + HexValue(s[5])) as char, Unescape(s[6..]))  // a char keeps the last two digits
  }

  /** deSerializeJsonString from a stream: the string and what is left of the text. */
  function ReadQuoted(s: string): Option<(string, string)> {
    if s == "" || s[0] != '"' then None
    else
      match QuoteEnd(s[1..], false)
      case None => None
      case Some(n) =>
        match Unescape(s[1..][..n])
        case None => None
        case Some(t) => Some((t, s[1..][n + 1..]))
  }

  /** deSerializeJsonStringIfNeeded: a quoted string, or everything up to the next blank. */
  function ReadWord(s: string): Option<(string, string)> {
    if s != "" && s[0] == '"' then ReadQuoted(s)
    else
      var n := Position(s, ' ');
      Some((s[..n], s[n..]))
  }

  lemma HexReadsBack(v: nat)
    requires v < 16
    ensures HexValue(HEX[v]) == v && Plain(HEX[v]) && HEX[v] != '\\'
  {
  }

  /** Digits are read in either case; anything else counts as 0. */
  lemma HexDigits(v: nat, c: char)
    requires v < 16
    ensures HexValue("0123456789abcdef"[v]) == v && HexValue("0123456789ABCDEF"[v]) == v
    ensures c !in "0123456789abcdefABCDEF" ==> HexValue(c) == 0
  {
    DigitListed(c);
  }

  lemma DigitListed(c: char)
    ensures '0' <= c <= '9' || 'a' <= c <= 'f' || 'A' <= c <= 'F' ==> c in "0123456789abcdefABCDEF"
  {
    var digits := "0123456789abcdefABCDEF";
    if '0' <= c <= '9' {
      assert digits[c as int - '0' as int] == c;
    } else if 'a' <= c <= 'f' {
      assert digits[c as int - 'a' as int + 10] == c;
    } else if 'A' <= c <= 'F' {
      assert digits[c as int - 'A' as int + 16] == c;
    }
  }

  lemma {:induction false} EscapedIsLonger(s: string)
    requires Bytes(s)
    ensures |EscapeAll(s)| >= |s|
  {
    if s != "" {
      EscapedIsLonger(s[1..]);
    }
  }

  /** A string is left as it is exactly if all its characters are printable, and none of them is a blank or a quote. */
  lemma QuotedIfNeeded(s: string)
    requires Bytes(s)
    ensures QuoteIfNeeded(s) == s <==> forall i :: 0 <= i < |s| ==> '!' <= s[i] <= '~' && s[i] != '"'
  {
    EscapedIsLonger(s);
    assert forall i :: 0 <= i < |s| ==> (Plain(s[i]) <==> '!' <= s[i] <= '~' && s[i] != '"');
  }

  lemma PlainSkipped(c: char, tail: string)
    requires c != '"' && c != '\\'
    ensures QuoteEnd([c] + tail, false) == (match QuoteEnd(tail, false) case None => None case Some(n) => Some(n + 1))
    ensures Unescape([c] + tail) == Prepend(c, Unescape(tail))
  {
    assert ([c] + tail)[1..] == tail;
  }

  lemma PairSkipped(c: char, tail: string)
    ensures QuoteEnd(['\\', c] + tail, false) == (match QuoteEnd(tail, false) case None => None case Some(n) => Some(n + 2))
    ensures c != 'u' ==> Unescape(['\\', c] + tail) == Prepend(Meant(c), Unescape(tail))
  {
    var s := ['\\', c] + tail;
    assert s[1..] == [c] + tail && s[1..][1..] == tail && s[2..] == tail;
  }

  /** One escaped character is passed over, and decoded. */
  lemma EscapeReads(c: char, tail: string)
    requires c as int < 256
    ensures QuoteEnd(Escape(c) + tail, false) ==
            (match QuoteEnd(tail, false) case None => None case Some(n) => Some(n + |Escape(c)|))
    ensures Unescape(Escape(c) + tail) == Prepend(c, Unescape(tail))
  {
    if Letter(c).Some? {
      PairSkipped(Letter(c).value, tail);
    } else if 32 <= c as int <= 126 {
      PlainSkipped(c, tail);
    } else {
      HexReads(HEX[c as int / 16], HEX[c as int % 16], tail);
      HexReadsBack(c as int / 16);
      HexReadsBack(c as int % 16);
    }
  }

  lemma HexReads(h: char, l: char, tail: string)
    ensures var s := ['\\', 'u', '0', '0', h, l] + tail;
            && Unescape(s) == Prepend((HexValue(h) * 16 + HexValue(l)) as char, Unescape(tail))
            && (Plain(h) && Plain(l) && h != '\\' && l != '\\' ==>
                  QuoteEnd(s, false) == (match QuoteEnd(tail, false) case None => None case Some(n) => Some(n + 6)))
  {
    hide QuoteEnd;
    var s := ['\\', 'u', '0', '0', h, l] + tail;
    assert s[6..] == tail && s[4] == h && s[5] == l && s[0] == '\\' && s[1] == 'u';
    if Plain(h) && Plain(l) && h != '\\' && l != '\\' {
      HexSkipped(h, l, tail);
    }
  }

  lemma HexSkipped(h: char, l: char, tail: string)
    requires Plain(h) && Plain(l) && h != '\\' && l != '\\'
    ensures QuoteEnd(['\\', 'u', '0', '0', h, l] + tail, false) ==
            (match QuoteEnd(tail, false) case None => None case Some(n) => Some(n + 6))
  {
    hide QuoteEnd, Unescape;
    var two, four := [h, l] + tail, ['0', '0'] + ([h, l] + tail);
    TwoSkipped(h, l, tail);
    TwoSkipped('0', '0', two);
    PairSkipped('u', four);
    assert ['\\', 'u', '0', '0', h, l] + tail == ['\\', 'u'] + four;
  }

  lemma TwoSkipped(a: char, b: char, tail: string)
    requires a != '"' && a != '\\' && b != '"' && b != '\\'
    ensures QuoteEnd([a, b] + tail, false) == (match QuoteEnd(tail, false) case None => None case Some(n) => Some(n + 2))
  {
    hide Unescape;
    PlainSkipped(b, tail);
    PlainSkipped(a, [b] + tail);
    assert [a, b] + tail == [a] + ([b] + tail);
  }

  lemma {:induction false} EscapedReads(s: string, rest: string)
    requires Bytes(s)
    ensures QuoteEnd(EscapeAll(s) + ("\"" + rest), false) == Some(|EscapeAll(s)|)
    ensures Unescape(EscapeAll(s)) == Some(s)
  {
    hide QuoteEnd, Unescape, Escape;
    if s == "" {
      NothingReads(rest);
    } else {
      var more := EscapeAll(s[1..]);
      EscapedReads(s[1..], rest);
      EscapeReads(s[0], more + ("\"" + rest));
      EscapeReads(s[0], more);
      assert EscapeAll(s) + ("\"" + rest) == Escape(s[0]) + (more + ("\"" + rest));
      assert [s[0]] + s[1..] == s;
    }
  }

  lemma NothingReads(rest: string)
    ensures QuoteEnd("" + ("\"" + rest), false) == Some(0) && Unescape("") == Some("")
  {
    assert "" + ("\"" + rest) == "\"" + rest;
  }

  lemma QuotedReads(s: string, rest: string)
    requires Bytes(s)
    ensures ReadQuoted(Quote(s) + rest) == Some((s, rest))
  {
    hide QuoteEnd, Unescape, EscapeAll;
    var e := EscapeAll(s);
    EscapedReads(s, rest);
    assert (Quote(s) + rest)[1..] == e + ("\"" + rest);
    assert (e + ("\"" + rest))[..|e|] == e && (e + ("\"" + rest))[|e| + 1..] == rest;
  }

  /** Whatever bytes it holds, a string is read back as it was, up to the blank behind it. */
  lemma WordReads(s: string, rest: string)
    requires Bytes(s) && (rest == "" || rest[0] == ' ')
    ensures ReadWord(QuoteIfNeeded(s) + rest) == Some((s, rest))
  {
    if i :| 0 <= i < |s| && !Plain(s[i]) {
      QuotedReads(s, rest);
    } else {
      BlankEnds(s, rest);
      assert s != "" ==> (s + rest)[0] == s[0];
      assert (s + rest)[..|s|] == s && (s + rest)[|s|..] == rest;
    }
  }

  lemma {:induction false} BlankEnds(s: string, rest: string)
    requires ' ' !in s && (rest == "" || rest[0] == ' ')
    ensures Position(s + rest, ' ') == |s|
  {
    if s == "" {
      assert s + rest == rest;
    } else {
      assert (s + rest)[1..] == s[1..] + rest;
      BlankEnds(s[1..], rest);
    }
  }

  /** Quoted, a string has no line break, and nothing in it but printable characters. */
  lemma {:induction false} EscapedIsPrintable(s: string)
    requires Bytes(s)
    ensures forall i :: 0 <= i < |EscapeAll(s)| ==> 32 <= EscapeAll(s)[i] as int <= 126
  {
    if s != "" {
      EscapedIsPrintable(s[1..]);
      if Letter(s[0]).None? && !(32 <= s[0] as int <= 126) {
        HexReadsBack(s[0] as int / 16);
        HexReadsBack(s[0] as int % 16);
      }
    }
  }

  lemma WordIsPrintable(s: string)
    requires Bytes(s)
    ensures '\n' !in QuoteIfNeeded(s)
  {
    EscapedIsPrintable(s);
  }

  /** deSerializeJsonString in place: the decoded text overwrites the quoted one from its front. */
  method UnescapeInPlace(s: array<char>) returns (length: Option<nat>)
    requires s.Length >= 2
    modifies s
    ensures length.None? <==> Unescape(old(s[1..s.Length - 1])).None?
    ensures length.Some? ==> length.value <= s.Length && Unescape(old(s[1..s.Length - 1])) == Some(s[..length.value])
  {
    hide Unescape, HexValue, Meant, Prepend;
    var w, i, len := 0, 1, s.Length - 1;
    ghost var all := s[1..len];
    AppendedNothing(Unescape(all));
    while i < len
      invariant w < i <= len && Unescape(all) == Appended(s[..w], Unescape(s[i..len]))
      decreases len - i
    {
      var c := s[i];
      ghost var before, body := s[..w], s[i..len];
      UnescapeStep(body);
      assert body[0] == c && body[1..] == s[i + 1..len];
      i := i + 1;
      if c == '\\' {
        if i >= len {
          return None;
        }
        var letter := s[i];
        assert body[1] == letter && body[2..] == s[i + 1..len];
        i := i + 1;
        if letter == 'u' {
          if i + 3 >= len {
            return None;
          }
          assert body[4] == s[i + 2] && body[5] == s[i + 3] && body[6..] == s[i + 4..len];
          c := (HexValue(s[i + 2]) * 16 + HexValue(s[i + 3])) as char;
          i := i + 4;
        } else {
          c := Meant(letter);
        }
      }
      AppendedMore(before, c, Unescape(s[i..len]));
      ghost var rest := s[i..len];
      s[w] := c;
      w := w + 1;
      assert s[i..len] == rest && s[..w] == before + [c];
    }
    assert s[i..len] == "" && s[..w] + "" == s[..w];
    NothingReads("");
    return Some(w);
  }

  lemma UnescapeStep(s: string)
    requires s != ""
    ensures Unescape(s) ==
            if s[0] != '\\' then Prepend(s[0], Unescape(s[1..]))
            else if |s| == 1 then None
            else if s[1] != 'u' then Prepend(Meant(s[1]), Unescape(s[2..]))
            else if |s| < 6 then None
            else Prepend((HexValue(s[4]) * 16 + HexValue(s[5])) as char, Unescape(s[6..]))
  {
  }

  function Appended(front: string, s: Option<string>): Option<string> {
    match s case None => None case Some(t) => Some(front + t)
  }

  lemma AppendedNothing(s: Option<string>)
    ensures Appended("", s) == s
  {
    if s.Some? {
      assert "" + s.value == s.value;
    }
  }

  lemma AppendedMore(front: string, c: char, s: Option<string>)
    ensures Appended(front, Prepend(c, s)) == Appended(front + [c], s)
  {
    if s.Some? {
      assert front + ([c] + s.value) == (front + [c]) + s.value;
    }
  }
}
