/** The recursive-descent parser for plural forms; `rest` is what a parser leaves unread. */
module PluralParser {
  import opened Options
  import opened Numerals
  import opened PluralForm

  datatype Result = Parsed(form: Option<Form>, rest: string)

  function TrimBack(s: string): (r: string)
    ensures |r| <= |s|
  {
    if s != "" && IsSpace(s[|s| - 1]) then TrimBack(s[..|s| - 1]) else s
  }

  function Trim(s: string): (r: string)
    ensures |r| <= |s|
  {
    TrimBack(TrimFront(s))
  }

  function Symbol(op: BinOp): string {
    match op
    case Or => "||"
    case And => "&&"
    case Equal => "=="
    case NotEqual => "!="
    case LessEq => "<="
    case GreaterEq => ">="
    case Less => "<"
    case Greater => ">"
    case Add => "+"
    case Sub => "-"
    case Mul => "*"
    case Div => "/"
    case Mod => "%"
  }

  predicate Starts(s: string, pattern: string) {
    |pattern| <= |s| && s[..|pattern|] == pattern
  }

  const TERNARY := 0
  const DISJUNCTION := 1
  const CONJUNCTION := 2
  const EQUALITY := 3
  const COMPARISON := 4
  const ADDITIVE := 5
  const MULTIPLICATIVE := 6
  const NEGATION := 7
  const PARENTHESIZED := 8

  /** The operators of a left-associative level, in the order in which they are tried. */
  function Operators(level: nat): seq<BinOp> {
    if level == DISJUNCTION then [Or]
    else if level == CONJUNCTION then [And]
    else if level == EQUALITY then [Equal, NotEqual]
    else if level == COMPARISON then [LessEq, GreaterEq, Less, Greater]
    else if level == ADDITIVE then [Add, Sub]
    else if level == MULTIPLICATIVE then [Mul, Div, Mod]
    else []
  }

  /** wcstoul in base 10: the value and how much was read; without digits, 0 and nothing. */
  function Wcstoul(s: string): (r: (nat, nat))
    ensures r.1 <= |s|
  {
    var blank := |s| - |TrimFront(s)|;
    var t := s[blank..];
    var signed := t != "" && (t[0] == '-' || t[0] == '+');
    var u := if signed then t[1..] else t;
    var run := DigitRun(u);
    if run == 0 then (0, 0)
    else
      var value := RunValue(u);
      (if value >= LIMIT then LIMIT - 1
       else if signed && t[0] == '-' then (LIMIT - value) % LIMIT
       else value,
       blank + (if signed then 1 else 0) + run)
  }

  function ParseAtomic(s: string): (r: Result)
    ensures |r.rest| <= |s|
  {
    if s == "" then Parsed(None, s)
    else if s[0] == 'n' then Parsed(Some(Identity), Trim(s[1..]))
    else
      var (value, read) := Wcstoul(s);
      Parsed(Some(ConstValue(value)), Trim(s[read..]))
  }

  function ParseParenthesized(s: string): (r: Result)
    ensures |r.rest| <= |s|
    decreases |s|, 1
  {
    if s == "" then Parsed(None, s)
    else if s[0] != '(' then ParseAtomic(s)
    else
      var r := ParseExpr(s[1..]);
      if r.form.None? then r
      else if r.rest == "" || r.rest[0] != ')' then Parsed(None, r.rest)
      else Parsed(r.form, Trim(r.rest[1..]))
  }

  function ParseNegation(s: string): (r: Result)
    ensures |r.rest| <= |s|
    decreases |s|, 2
  {
    if s == "" then Parsed(None, s)
    else if s[0] != '!' then ParseParenthesized(s)
    else
      var r := ParseNegation(Trim(s[1..]));
      if r.form.None? then r else Parsed(Some(Not(r.form.value)), r.rest)
  }

  /** reduce_ltr for one operator: the operator and its right operand. */
  function ReduceOne(level: nat, op: BinOp, lhs: Form, rest: string): (r: Result)
    requires DISJUNCTION <= level <= MULTIPLICATIVE
    ensures |r.rest| <= |rest|
    ensures Starts(rest, Symbol(op)) ==> |r.rest| < |rest|
    ensures r.form.Some? ==> Starts(rest, Symbol(op))
    decreases |rest|, 0
  {
    if !Starts(rest, Symbol(op)) then Parsed(None, rest)
    else
      var next := Parse(level + 1, Trim(rest[|Symbol(op)|..]));
      if next.form.None? then next
      else Parsed(Some(Binary(op, lhs, next.form.value)), Trim(next.rest))
  }

  /** reduce_ltr: the first operator that reads anything decides. */
  function Reduce(level: nat, ops: seq<BinOp>, lhs: Form, rest: string): (r: Result)
    requires DISJUNCTION <= level <= MULTIPLICATIVE
    ensures |r.rest| <= |rest| && (r.form.Some? ==> |r.rest| < |rest|)
    decreases |rest|, 1, |ops|
  {
    if ops == [] then Parsed(None, rest)
    else
      var next := ReduceOne(level, ops[0], lhs, rest);
      if next.form.Some? || next.rest != rest then next
      else Reduce(level, ops[1..], lhs, rest)
  }

  /** The loop of parse_ltr: operators and operands are added on the right as long as they can be read. */
  function Extend(level: nat, lhs: Form, rest: string): (r: Result)
    requires DISJUNCTION <= level <= MULTIPLICATIVE
    ensures |r.rest| <= |rest|
    decreases |rest|, 2
  {
    if rest == "" then Parsed(Some(lhs), rest)
    else
      var next := Reduce(level, Operators(level), lhs, rest);
      if next.form.None? then Parsed(Some(lhs), rest)
      else Extend(level, next.form.value, Trim(next.rest))
  }

  /** parse_ltr for a left-associative level. */
  function ParseLtr(level: nat, s: string): (r: Result)
    requires DISJUNCTION <= level <= MULTIPLICATIVE
    ensures |r.rest| <= |s|
    decreases |s|, 11 - level, 0
  {
    var first := Parse(level + 1, s);
    if first.form.None? then first else Extend(level, first.form.value, Trim(first.rest))
  }

  function ParseTernary(s: string): (r: Result)
    ensures |r.rest| <= |s|
    decreases |s|, 12
  {
    var first := Parse(DISJUNCTION, s);
    if first.rest == "" || first.rest[0] != '?' then first
    else
      var second := ParseTernary(Trim(first.rest[1..]));
      if second.rest == "" || second.rest[0] != ':' then Parsed(None, second.rest)
      else
        var third := ParseTernary(Trim(second.rest[1..]));
        Parsed(Some(Ternary(first.form, second.form, third.form)), third.rest)
  }

  /** The parser of a precedence level. */
  function Parse(level: nat, s: string): (r: Result)
    requires level <= PARENTHESIZED
    ensures |r.rest| <= |s|
    decreases |s|, if level == TERNARY then 13 else if level <= MULTIPLICATIVE then 11 - level else 3, 1
  {
    if level == TERNARY then ParseTernary(s)
    else if level <= MULTIPLICATIVE then ParseLtr(level, s)
    else if level == NEGATION then ParseNegation(s)
    else ParseParenthesized(s)
  }

  function ParseExpr(s: string): (r: Result)
    ensures |r.rest| <= |s|
    decreases |s|, 14
  {
    ParseTernary(Trim(s))
  }

  /** parse_ltr as the loop it is. */
  method ParseLeftToRight(level: nat, s: string) returns (r: Result)
    requires DISJUNCTION <= level <= MULTIPLICATIVE
    ensures r == ParseLtr(level, s)
  {
    r := Parse(level + 1, s);
    if r.form.None? {
      return;
    }
    r := r.(rest := Trim(r.rest));
    while r.rest != ""
      invariant r.form.Some? && ParseLtr(level, s) == Extend(level, r.form.value, r.rest)
      decreases |r.rest|
    {
      var next := Reduce(level, Operators(level), r.form.value, r.rest);
      if next.form.None? {
        return;
      }
      r := next.(rest := Trim(next.rest));
    }
  }

  /** GettextPluralForm::parse. */
  function ParseForm(nplurals: nat, s: string): Option<Form> {
    if nplurals == 0 then None
    else
      var r := ParseExpr(s);
      if r.rest != "" then None else r.form
  }

  const HEADER := "Plural-Forms: nplurals="
  const FORMULA := "plural="

  /** The first position of a pattern at or after `from`. */
  function Find(s: string, pattern: string, from: nat): (r: Option<nat>)
    requires from <= |s|
    ensures r.Some? ==> from <= r.value <= |s| && Starts(s[r.value..], pattern)
    decreases |s| - from
  {
    if Starts(s[from..], pattern) then Some(from)
    else if from == |s| then None
    else Find(s, pattern, from + 1)
  }

  // A parsed header line: the number of plurals and the formula, unless that is null.
  datatype Header = Header(nplurals: nat, form: Form)

  /** GettextPluralForm::parseHeaderLine. */
  function ParseHeaderLine(s: string): Option<Header> {
    if !Starts(s, HEADER) || s[|s| - 1] != ';' then None
    else
      var nplurals := Wcstoul(s[|HEADER|..]).0;
      var at := Find(s, FORMULA, 0);
      if at.None? then None
      else
        var from := at.value + |FORMULA|;
        assert s[at.value..][..|FORMULA|][|FORMULA| - 1] == s[from - 1] == '=';
        match ParseForm(nplurals, s[from..|s| - 1])
        case None => None
        case Some(f) => Some(Header(nplurals, f))
  }
}
