/** Whole formulas and header lines: what is written in C's notation is what gets evaluated. */
module PluralHeader {
  import opened Options
  import opened Numerals
  import opened PluralForm
  import opened PluralParser
  import opened PluralSyntax

  /** The value of a formula by the rules of C; None where it is undefined. The right of && and || may be skipped. */
  function CValue(s: Syntax, n: nat): Option<nat>
    requires Formed(s)
  {
    match s
    case N => Some(n)
    case Number(d) => Some(Decimal(d))
    case Operand(text) => Some(Wcstoul(text).0)
    case Paren(_, a, _) => CValue(a, n)
    case Bang(_, a) => (match CValue(a, n) case None => None case Some(x) => Some(if x == 0 then 1 else 0))
    case Infix(op, a, _, _, b) =>
      (match CValue(a, n)
       case None => None
       case Some(x) =>
         if op == And && x == 0 then Some(0)
         else if op == Or && x != 0 then Some(1)
         else (match CValue(b, n) case None => None case Some(y) => CResult(op, x, y)))
    case Question(c, _, _, a, _, _, b) =>
      (match CValue(c, n)
       case None => None
       case Some(x) => if x != 0 then CValue(a, n) else CValue(b, n))
  }

  /** An operator of C on two values of type unsigned long; && and || have looked at the first already. */
  function CResult(op: BinOp, x: nat, y: nat): Option<nat> {
    match op
    case Or => Some(if y == 0 then 0 else 1)
    case And => Some(if y == 0 then 0 else 1)
    case Equal => Some(if x == y then 1 else 0)
    case NotEqual => Some(if x == y then 0 else 1)
    case LessEq => Some(if y < x then 0 else 1)
    case GreaterEq => Some(if x < y then 0 else 1)
    case Less => Some(if x < y then 1 else 0)
    case Greater => Some(if y < x then 1 else 0)
    case Add => Some((x + y) % LIMIT)
    case Sub => Some((x - y) % LIMIT)
    case Mul => Some((x * y) % LIMIT)
    case Div => if y > 0 then Some(x / y) else None
    case Mod => if y > 0 then Some(x % y) else None
  }

  /** The value is defined, but an operand that C skips divides by zero. */
  predicate SkipsDivision(s: Syntax, n: nat)
    requires Formed(s)
  {
    match s
    case N => false
    case Number(_) => false
    case Operand(_) => false
    case Paren(_, a, _) => SkipsDivision(a, n)
    case Bang(_, a) => SkipsDivision(a, n)
    case Infix(_, a, _, _, b) =>
      CValue(s, n).Some? && (SkipsDivision(a, n) || SkipsDivision(b, n) || CValue(b, n).None?)
    case Question(c, _, _, a, _, _, b) =>
      && CValue(s, n).Some?
      && (SkipsDivision(c, n) || if CValue(c, n).value != 0 then SkipsDivision(a, n) else SkipsDivision(b, n))
  }

  /** The operators are those of C. */
  lemma OperatorsAreC(op: BinOp, x: nat, y: nat)
    ensures !(op == And && x == 0) && !(op == Or && x != 0) ==> Calculate(op, x, y) == CResult(op, x, y)
    ensures op == And && x == 0 ==> Calculate(op, x, y) == Some(0)
    ensures op == Or && x != 0 ==> Calculate(op, x, y) == Some(1)
  {
  }

  /** Evaluation agrees with C unless an operand that C skips divides by zero; then it is undefined. */
  lemma {:induction false} TreeMeans(s: Syntax, nplurals: nat, n: nat)
    requires Formed(s) && nplurals > 0
    ensures Evaluate(Tree(s), nplurals, n) == if SkipsDivision(s, n) then None else CValue(s, n)
    ensures SkipsDivision(s, n) ==> CValue(s, n).Some?
  {
    hide Calculate, CResult;
    TreeIsComplete(s);
    CompleteSize(Tree(s), nplurals);
    match s
    case N =>
    case Number(_) =>
    case Operand(_) =>
    case Paren(_, a, _) => TreeMeans(a, nplurals, n);
    case Bang(_, a) => TreeMeans(a, nplurals, n);
    case Infix(op, a, _, _, b) =>
      TreeMeans(a, nplurals, n);
      TreeMeans(b, nplurals, n);
      if CValue(a, n).Some? && CValue(b, n).Some? {
        OperatorsAreC(op, CValue(a, n).value, CValue(b, n).value);
      }
    case Question(c, _, _, a, _, _, b) =>
      TreeMeans(c, nplurals, n);
      TreeMeans(a, nplurals, n);
      TreeMeans(b, nplurals, n);
  }

  /** Every legal formula, with blanks around it, is read completely, and evaluates as in C unless C skips a division by zero. */
  lemma FormulaParses(s: Syntax, v: string, w: string, nplurals: nat)
    requires Legal(s) && Blank(v) && Blank(w) && nplurals > 0
    ensures ParseForm(nplurals, v + Show(s) + w) == Some(Tree(s))
    ensures forall n :: Evaluate(Tree(s), nplurals, n) == CValue(s, n) <==> !SkipsDivision(s, n)
    ensures forall n :: Evaluate(Tree(s), nplurals, n).Some? ==> Evaluate(Tree(s), nplurals, n) == CValue(s, n)
  {
    hide Trim, ParseTernary, Evaluate, CValue, SkipsDivision;
    ShowClean(s);
    TrimBoth(v, Show(s), w);
    LegalFits(s, "");
    assert Show(s) + "" + "" == Show(s);
    ParsesBack(TERNARY, s, "", "");
    forall n
      ensures Evaluate(Tree(s), nplurals, n) == CValue(s, n) <==> !SkipsDivision(s, n)
      ensures Evaluate(Tree(s), nplurals, n).Some? ==> Evaluate(Tree(s), nplurals, n) == CValue(s, n)
    {
      TreeMeans(s, nplurals, n);
    }
  }

  /** What a text is evaluated to. */
  function ValueOf(nplurals: nat, text: string, n: nat): Option<nat> {
    match ParseForm(nplurals, text)
    case None => None
    case Some(f) => Evaluate(f, nplurals, n)
  }

  /** An operator between two numbers: how it is written, and what it yields. */
  lemma ComparisonsByText(a: string, b: string, nplurals: nat, n: nat)
    requires Numeral(a) && Numeral(b) && nplurals > 0
    ensures var x, y := Decimal(a), Decimal(b);
            && ValueOf(nplurals, a + "||" + b, n) == Some(if x != 0 || y != 0 then 1 else 0)
            && ValueOf(nplurals, a + "&&" + b, n) == Some(if x != 0 && y != 0 then 1 else 0)
            && ValueOf(nplurals, a + "==" + b, n) == Some(if x == y then 1 else 0)
            && ValueOf(nplurals, a + "!=" + b, n) == Some(if x != y then 1 else 0)
            && ValueOf(nplurals, a + "<=" + b, n) == Some(if x <= y then 1 else 0)
            && ValueOf(nplurals, a + ">=" + b, n) == Some(if x >= y then 1 else 0)
            && ValueOf(nplurals, a + "<" + b, n) == Some(if x < y then 1 else 0)
            && ValueOf(nplurals, a + ">" + b, n) == Some(if x > y then 1 else 0)
  {
    hide ValueOf, Decimal, Digits;
    OperatorRead(Or, a, b, nplurals, n);
    OperatorRead(And, a, b, nplurals, n);
    OperatorRead(Equal, a, b, nplurals, n);
    OperatorRead(NotEqual, a, b, nplurals, n);
    OperatorRead(LessEq, a, b, nplurals, n);
    OperatorRead(GreaterEq, a, b, nplurals, n);
    OperatorRead(Less, a, b, nplurals, n);
    OperatorRead(Greater, a, b, nplurals, n);
  }

  lemma ArithmeticIs(x: nat, y: nat)
    requires x < LIMIT && y < LIMIT
    ensures Calculate(Add, x, y) == Some((x + y) % 18446744073709551616)
    ensures Calculate(Sub, x, y) == Some(if y <= x then x - y else x + 18446744073709551616 - y)
    ensures Calculate(Mul, x, y) == Some((x * y) % 18446744073709551616)
    ensures Calculate(Div, x, y) == (if y == 0 then None else Some(x / y))
    ensures Calculate(Mod, x, y) == (if y == 0 then None else Some(x % y))
  {
    WrapOnce(x - y);
  }

  lemma ArithmeticByText(a: string, b: string, nplurals: nat, n: nat)
    requires Numeral(a) && Numeral(b) && nplurals > 0
    ensures var x, y := Decimal(a), Decimal(b);
            && ValueOf(nplurals, a + "+" + b, n) == Some((x + y) % 18446744073709551616)
            && ValueOf(nplurals, a + "-" + b, n) == Some(if y <= x then x - y else x + 18446744073709551616 - y)
            && ValueOf(nplurals, a + "*" + b, n) == Some((x * y) % 18446744073709551616)
            && ValueOf(nplurals, a + "/" + b, n) == (if y == 0 then None else Some(x / y))
            && ValueOf(nplurals, a + "%" + b, n) == (if y == 0 then None else Some(x % y))
  {
    hide ValueOf, Decimal, Calculate;
    ArithmeticIs(Decimal(a), Decimal(b));
    OperatorRead(Add, a, b, nplurals, n);
    OperatorRead(Sub, a, b, nplurals, n);
    OperatorRead(Mul, a, b, nplurals, n);
    OperatorRead(Div, a, b, nplurals, n);
    OperatorRead(Mod, a, b, nplurals, n);
  }

  lemma OperatorRead(op: BinOp, a: string, b: string, nplurals: nat, n: nat)
    requires Numeral(a) && Numeral(b) && nplurals > 0
    ensures ValueOf(nplurals, a + Symbol(op) + b, n) == Calculate(op, Decimal(a), Decimal(b))
  {
    hide Symbol, ParseForm, Calculate, Decimal, Legal, SkipsDivision, CValue;
    var s := Infix(op, Number(a), "", "", Number(b));
    SymbolStarts(op);
    AtomIsLegal(Number(a));
    AtomIsLegal(Number(b));
    InfixIsLegal(op, Number(a), Number(b));
    FormulaParses(s, "", "", nplurals);
    assert "" + Show(s) + "" == a + Symbol(op) + b;
    var x, y := ConstValue(Decimal(a)), ConstValue(Decimal(b));
    assert Tree(s) == Binary(op, x, y);
    CompleteSize(Tree(s), nplurals);
    assert Evaluate(x, nplurals, n) == Some(Decimal(a)) && Evaluate(y, nplurals, n) == Some(Decimal(b));
  }

  /** `n&&1%n` is 0 for 0 in C; the evaluation divides by zero. */
  lemma AndEvaluatesBoth() returns (s: Syntax)
    ensures Legal(s) && Show(s) == "n&&1%n" && ParseForm(2, "n&&1%n") == Some(Tree(s))
    ensures CValue(s, 0) == Some(0) && Evaluate(Tree(s), 2, 0) == None
  {
    var one := Number("1");
    assert "1"[..0] == "";
    var rhs := Infix(Mod, one, "", "", N);
    s := Infix(And, N, "", "", rhs);
    assert Show(rhs) == "1%n";
    assert Show(s) == "n&&1%n";
    FormulaParses(s, "", "", 2);
    assert "" + Show(s) + "" == "n&&1%n";
    assert CValue(rhs, 0) == None;
    assert SkipsDivision(s, 0);
    TreeMeans(s, 2, 0);
  }

  /** Two formulas with the same text are the same formula up to blanks and parentheses. */
  lemma TextIsUnambiguous(s: Syntax, t: Syntax)
    requires Legal(s) && Legal(t) && Show(s) == Show(t)
    ensures Tree(s) == Tree(t)
  {
    FormulaParses(s, "", "", 1);
    FormulaParses(t, "", "", 1);
    assert "" + Show(s) + "" == Show(s) && "" + Show(t) + "" == Show(t);
  }

  lemma {:induction false} NothingToRead(level: nat)
    requires level <= PARENTHESIZED
    ensures Parse(level, "") == Parsed(None, "")
    decreases PARENTHESIZED - level
  {
    if level < NEGATION {
      NothingToRead(level + 1);
    }
  }

  /** A conditional that ends behind its colon is accepted, but yields 0 for every number. */
  lemma MissingPartIsZero(c: Syntax, g1: string, g2: string, a: Syntax, g3: string, nplurals: nat)
    requires Legal(c) && Level(c) >= DISJUNCTION && Legal(a) && Blank(g1) && Blank(g2) && Blank(g3) && nplurals > 0
    ensures var form := Ternary(Some(Tree(c)), Some(Tree(a)), None);
            && ParseForm(nplurals, Show(c) + g1 + ("?" + g2 + Show(a) + g3 + ":")) == Some(form)
            && forall n :: Evaluate(form, nplurals, n) == Some(0)
  {
    hide ParseTernary, Trim, Show, Formed, Plain, Tree, Level, Evaluate, Parse;
    var yes, second := "?" + g2 + Show(a) + g3 + ":", Show(a) + g3 + ":";
    var text := Show(c) + g1 + yes;
    HalfText(c, g1, g2, a, g3, text, yes, second);
    HalfRead(text, yes, second, Tree(c), Tree(a));
    forall n ensures Evaluate(Ternary(Some(Tree(c)), Some(Tree(a)), None), nplurals, n) == Some(0) {
      NoAlternative(Tree(c), Tree(a), nplurals, n);
    }
  }

  lemma NoAlternative(c: Form, a: Form, nplurals: nat, n: nat)
    ensures Evaluate(Ternary(Some(c), Some(a), None), nplurals, n) == Some(0)
  {
  }

  lemma HalfText(c: Syntax, g1: string, g2: string, a: Syntax, g3: string, text: string, yes: string, second: string)
    requires Legal(c) && Level(c) >= DISJUNCTION && Legal(a) && Blank(g1) && Blank(g2) && Blank(g3)
    requires yes == "?" + g2 + Show(a) + g3 + ":" && text == Show(c) + g1 + yes && second == Show(a) + g3 + ":"
    ensures Trim(text) == text && yes != "" && yes[0] == '?' && Trim(yes[1..]) == second && Trim("") == ""
    ensures Parse(DISJUNCTION, text) == Parsed(Some(Tree(c)), yes)
    ensures ParseTernary(second) == Parsed(Some(Tree(a)), ":") && ParseTernary("") == Parsed(None, "")
  {
    hide Trim, ParseTernary, Show, Formed, Plain, Fits, Tree, Level, Blank;
    NoBlanks();
    assert yes + "" == yes;
    BlankFront(g1, yes);
    BlankFront(g3, ":");
    LegalFits(c, g1 + yes);
    LegalFits(a, g3 + ":");
    PartText(a, "?", g2, g3, ":");
    ParsesBack(DISJUNCTION, c, g1, yes);
    ParsesBack(TERNARY, a, g3, ":");
    NothingToRead(TERNARY);
    ShowClean(c);
    CleanJoin(Show(c), g1, yes);
    TrimBlank("", text);
    TrimBlank("", "");
    assert "" + text == text && "" + "" == "";
  }

  lemma HalfRead(text: string, yes: string, second: string, c: Form, a: Form)
    requires Parse(DISJUNCTION, text) == Parsed(Some(c), yes) && yes != "" && yes[0] == '?' && Trim(yes[1..]) == second
    requires ParseTernary(second) == Parsed(Some(a), ":") && ParseTernary("") == Parsed(None, "")
    requires Trim("") == ""
    ensures ParseTernary(text) == Parsed(Some(Ternary(Some(c), Some(a), None)), "")
  {
    hide Parse, Trim;
    assert ":"[1..] == "";
  }

  function FormLevel(f: Form): nat {
    match f
    case Not(_) => NEGATION
    case Binary(op, _, _) => LevelOf(op)
    case Ternary(_, _, _) => TERNARY
    case _ => PARENTHESIZED
  }

  /** Prints a form without blanks, and with parentheses only where the level calls for them. */
  function Print(f: Form, level: nat): Syntax
    requires Complete(f)
    decreases f, if FormLevel(f) < level then 1 else 0
  {
    if FormLevel(f) < level then Paren("", Print(f, 0), "")
    else
      match f
      case Identity => N
      case ConstValue(v) => Number(DigitsOf(v))
      case Not(a) => Bang("", Print(a, NEGATION))
      case Binary(op, a, b) => Infix(op, Print(a, LevelOf(op)), "", "", Print(b, LevelOf(op) + 1))
      case Ternary(c, a, b) =>
        Question(Print(c.value, DISJUNCTION), "", "", Print(a.value, TERNARY), "", "", Print(b.value, TERNARY))
  }

  lemma AtomIsLegal(s: Syntax)
    requires s.N? || (s.Number? && Digits(s.digits) && Decimal(s.digits) < LIMIT)
    ensures Legal(s) && Tree(s) == if s.N? then Identity else ConstValue(Decimal(s.digits))
  {
  }

  lemma ParenIsLegal(s: Syntax)
    requires Legal(s)
    ensures Legal(Paren("", s, "")) && Tree(Paren("", s, "")) == Tree(s)
  {
  }

  lemma BangIsLegal(s: Syntax)
    requires Legal(s) && Level(s) >= NEGATION
    ensures Legal(Bang("", s)) && Tree(Bang("", s)) == Not(Tree(s))
  {
  }

  lemma InfixIsLegal(op: BinOp, a: Syntax, b: Syntax)
    requires Legal(a) && Legal(b) && Level(a) >= LevelOf(op) && Level(b) > LevelOf(op)
    ensures Legal(Infix(op, a, "", "", b)) && Tree(Infix(op, a, "", "", b)) == Binary(op, Tree(a), Tree(b))
  {
  }

  lemma QuestionIsLegal(c: Syntax, a: Syntax, b: Syntax)
    requires Legal(c) && Legal(a) && Legal(b) && Level(c) >= DISJUNCTION
    ensures Legal(Question(c, "", "", a, "", "", b))
    ensures Tree(Question(c, "", "", a, "", "", b)) == Ternary(Some(Tree(c)), Some(Tree(a)), Some(Tree(b)))
  {
  }

  lemma {:induction false} PrintIsLegal(f: Form, level: nat)
    requires Complete(f) && level <= PARENTHESIZED
    ensures Legal(Print(f, level)) && Level(Print(f, level)) >= level && Tree(Print(f, level)) == f
    decreases f, if FormLevel(f) < level then 1 else 0
  {
    if FormLevel(f) < level {
      PrintIsLegal(f, 0);
      ParenIsLegal(Print(f, 0));
    } else {
      hide Legal;
      match f
      case Identity => AtomIsLegal(N);
      case ConstValue(v) =>
        DigitsReadBack(v);
        AtomIsLegal(Number(DigitsOf(v)));
      case Not(a) =>
        PrintIsLegal(a, NEGATION);
        BangIsLegal(Print(a, NEGATION));
      case Binary(op, a, b) =>
        SymbolStarts(op);
        PrintIsLegal(a, LevelOf(op));
        PrintIsLegal(b, LevelOf(op) + 1);
        InfixIsLegal(op, Print(a, LevelOf(op)), Print(b, LevelOf(op) + 1));
      case Ternary(c, a, b) =>
        PrintIsLegal(c.value, DISJUNCTION);
        PrintIsLegal(a.value, TERNARY);
        PrintIsLegal(b.value, TERNARY);
        QuestionIsLegal(Print(c.value, DISJUNCTION), Print(a.value, TERNARY), Print(b.value, TERNARY));
    }
  }

  /** Round trip: every complete form is the parse of its own print. */
  lemma PrintParses(f: Form, nplurals: nat)
    requires Complete(f) && nplurals > 0
    ensures ParseForm(nplurals, Show(Print(f, TERNARY))) == Some(f)
  {
    hide Print, Show, Tree, Legal, Level, ParseForm;
    PrintIsLegal(f, TERNARY);
    var s := Print(f, TERNARY);
    FormulaParses(s, "", "", nplurals);
    assert "" + Show(s) + "" == Show(s);
  }

  /** The header line for a number of plurals and a formula. */
  function HeaderLine(digits: string, gap: string, formula: string): string {
    "Plural-Forms: nplurals=" + digits + ";" + gap + "plural=" + (formula + ";")
  }

  /** Nothing before the formula looks like `plural=`. */
  lemma {:induction false} FindsFormula(before: string, after: string, from: nat)
    requires from <= |before| && forall i :: from <= i < |before| ==> !Starts((before + FORMULA + after)[i..], FORMULA)
    ensures Find(before + FORMULA + after, FORMULA, from) == Some(|before|)
    decreases |before| - from
  {
    var s := before + FORMULA + after;
    if from == |before| {
      assert s[from..] == FORMULA + after;
    } else {
      FindsFormula(before, after, from + 1);
    }
  }

  lemma NotYetFormula(digits: string, gap: string, after: string, i: nat)
    requires Digits(digits) && Blank(gap) && i < |HEADER + digits + ";" + gap|
    ensures !Starts((HEADER + digits + ";" + gap + FORMULA + after)[i..], FORMULA)
  {
    var before := HEADER + digits + ";" + gap;
    var s := before + FORMULA + after;
    OnlyP(digits, gap, i);
    assert s[i] == before[i] && s[21] == HEADER[21] == 's';
  }

  /** The only p before the formula is the one of `nplurals`. */
  lemma OnlyP(digits: string, gap: string, i: nat)
    requires Digits(digits) && Blank(gap) && i < |HEADER + digits + ";" + gap|
    ensures (HEADER + digits + ";" + gap)[i] == 'p' ==> i == 15
  {
    var before := HEADER + digits + ";" + gap;
    if i < |HEADER| {
      assert before[i] == HEADER[i];
    } else {
      var j := i - |HEADER|;
      assert before[i] == if j < |digits| then digits[j] else if j == |digits| then ';' else gap[j - |digits| - 1];
    }
  }

  lemma HeaderText(digits: string, gap: string, formula: string)
    ensures var before, after := HEADER + digits + ";" + gap, formula + ";";
            var line := before + FORMULA + after;
            && Starts(line, HEADER) && line[|line| - 1] == ';'
            && line[|HEADER|..] == digits + (";" + gap + FORMULA + after)
            && line[|before| + |FORMULA|..|line| - 1] == formula
  {
    var before, after := HEADER + digits + ";" + gap, formula + ";";
    var line := before + FORMULA + after;
    var tail := ";" + gap + FORMULA + after;
    assert line == HEADER + (digits + tail);
    assert line[|line| - 1] == after[|after| - 1];
  }

  /** A header line gives the number of plurals and the tree of its formula; none for 0 plurals. */
  lemma HeaderParses(digits: string, gap: string, v: string, s: Syntax, w: string)
    requires Digits(digits) && Decimal(digits) < LIMIT && Blank(gap) && Blank(v) && Legal(s) && Blank(w)
    ensures ParseHeaderLine(HeaderLine(digits, gap, v + Show(s) + w)) ==
            if Decimal(digits) == 0 then None else Some(Header(Decimal(digits), Tree(s)))
  {
    hide ParseHeaderLine, ParseExpr, Wcstoul, Find, Legal, Show, Tree, Decimal, Starts;
    var formula := v + Show(s) + w;
    var before, after := HEADER + digits + ";" + gap, formula + ";";
    HeaderText(digits, gap, formula);
    ReadsNumber(digits, ";" + gap + FORMULA + after);
    forall i | 0 <= i < |before| ensures !Starts((before + FORMULA + after)[i..], FORMULA) {
      NotYetFormula(digits, gap, after, i);
    }
    FindsFormula(before, after, 0);
    if Decimal(digits) > 0 {
      FormulaParses(s, v, w, Decimal(digits));
    }
    HeaderSteps(before + FORMULA + after, |before|, Decimal(digits), formula);
  }

  /** parseHeaderLine from what its parts find. */
  lemma HeaderSteps(line: string, at: nat, nplurals: nat, formula: string)
    requires Starts(line, HEADER) && line[|line| - 1] == ';'
    requires Wcstoul(line[|HEADER|..]).0 == nplurals && Find(line, FORMULA, 0) == Some(at)
    requires at + |FORMULA| <= |line| - 1 && line[at + |FORMULA|..|line| - 1] == formula
    ensures ParseHeaderLine(line) ==
            match ParseForm(nplurals, formula) case None => None case Some(f) => Some(Header(nplurals, f))
  {
    hide ParseForm, Wcstoul, Find;
  }
}
