/** The texts of plural forms, and that the parser reads each of them back as the tree it spells. */
module PluralSyntax {
  import opened Options
  import opened Numerals
  import opened PluralForm
  import opened PluralParser

  // A formula as it is written: with the precedence of C, any blanks between tokens, any extra parentheses.
  datatype Syntax =
    | N
    | Number(digits: string)
    | Operand(text: string)  // what C does not allow, but number parsing takes: signed, too large, or nothing at all
    | Paren(before: string, inner: Syntax, after: string)
    | Bang(gap: string, operand: Syntax)
    | Infix(op: BinOp, lhs: Syntax, left: string, right: string, rhs: Syntax)
    | Question(cond: Syntax, g1: string, g2: string, val: Syntax, g3: string, g4: string, alt: Syntax)

  /** The precedence of C, from the loosest operator to the tightest. */
  function LevelOf(op: BinOp): nat {
    match op
    case Or => 1
    case And => 2
    case Equal => 3
    case NotEqual => 3
    case LessEq => 4
    case GreaterEq => 4
    case Less => 4
    case Greater => 4
    case Add => 5
    case Sub => 5
    case Mul => 6
    case Div => 6
    case Mod => 6
  }

  function Level(s: Syntax): nat {
    match s
    case N => PARENTHESIZED
    case Number(_) => PARENTHESIZED
    case Operand(_) => PARENTHESIZED
    case Paren(_, _, _) => PARENTHESIZED
    case Bang(_, _) => NEGATION
    case Infix(op, _, _, _, _) => LevelOf(op)
    case Question(_, _, _, _, _, _, _) => TERNARY
  }

  predicate Blank(w: string) {
    forall i :: 0 <= i < |w| ==> w[i] == ' ' || '\t' <= w[i] <= '\r'
  }

  lemma NoBlanks()
    ensures Blank("")
  {
  }

  /** A number of C that an unsigned long can hold. */
  predicate Numeral(d: string) {
    Digits(d) && Decimal(d) < LIMIT
  }

  /** Operands bind tighter than their operator; on the left, and after `?` and `:`, as tightly will do. */
  predicate Formed(s: Syntax) {
    match s
    case N => true
    case Number(d) => Numeral(d)
    case Operand(text) => Wcstoul(text).1 == |text| && !Numeral(text) && (text != "" ==> !IsSpace(text[0]))
    case Paren(a, inner, b) => Blank(a) && Blank(b) && Formed(inner)
    case Bang(w, a) => Blank(w) && Formed(a) && Level(a) >= NEGATION
    case Infix(op, a, v, w, b) =>
      Blank(v) && Blank(w) && Formed(a) && Formed(b) && Level(a) >= LevelOf(op) && Level(b) > LevelOf(op)
    case Question(c, g1, g2, a, g3, g4, b) =>
      && Blank(g1) && Blank(g2) && Blank(g3) && Blank(g4)
      && Formed(c) && Formed(a) && Formed(b) && Level(c) >= DISJUNCTION
  }

  /** Every operand is there, without a sign. */
  predicate Plain(s: Syntax) {
    match s
    case N => true
    case Number(_) => true
    case Operand(_) => false
    case Paren(_, a, _) => Plain(a)
    case Bang(_, a) => Plain(a)
    case Infix(_, a, _, _, b) => Plain(a) && Plain(b)
    case Question(c, _, _, a, _, _, b) => Plain(c) && Plain(a) && Plain(b)
  }

  /** A formula of C. */
  predicate Legal(s: Syntax) {
    Formed(s) && Plain(s)
  }

  function Show(s: Syntax): string {
    match s
    case N => "n"
    case Number(d) => d
    case Operand(text) => text
    case Paren(a, inner, b) => "(" + a + Show(inner) + b + ")"
    case Bang(w, a) => "!" + w + Show(a)
    case Infix(op, a, v, w, b) => Show(a) + v + Symbol(op) + w + Show(b)
    case Question(c, g1, g2, a, g3, g4, b) => Show(c) + g1 + "?" + g2 + Show(a) + g3 + ":" + g4 + Show(b)
  }

  /** A character a formula may start with. */
  predicate Opening(c: char) {
    c == 'n' || c == '(' || c == '!' || IsDigit(c)
  }

  predicate Closing(c: char) {
    c == 'n' || c == ')' || IsDigit(c)
  }

  predicate IsSign(c: char) { c == '+' || c == '-' }

  /** Behind a number or a missing one, `after` does not go on with it, or stand in for it. */
  predicate Ends(text: string, after: string) {
    if text != "" then after != "" ==> !IsDigit(after[0])
    else after != "" && !IsSpace(after[0]) && !Opening(after[0]) && !(IsSign(after[0]) && |after| > 1 && IsDigit(after[1]))
  }

  /** In front of `after`, a formula is taken for what it is: numbers end where they should, and `<` is not taken for `<=`. */
  predicate Fits(s: Syntax, after: string) {
    match s
    case N => true
    case Number(d) => Ends(d, after)
    case Operand(text) => Ends(text, after)
    case Paren(_, inner, b) => Fits(inner, b + (")" + after))
    case Bang(_, a) => Fits(a, after)
    case Infix(op, a, v, w, b) =>
      var tail := w + (Show(b) + after);
      Fits(a, v + (Symbol(op) + tail)) && Fits(b, after) && Apart(op, tail)
    case Question(c, g1, g2, a, g3, g4, b) =>
      var no := ":" + (g4 + (Show(b) + after));
      var yes := "?" + (g2 + (Show(a) + (g3 + no)));
      Fits(c, g1 + yes) && Fits(a, g3 + no) && Fits(b, after)
  }

  /** What follows does not make another operator of it. */
  predicate Apart(op: BinOp, tail: string) {
    (op == Less || op == Greater) && tail != "" ==> tail[0] != '='
  }

  /** The tree a formula spells. */
  function Tree(s: Syntax): Form
    requires Formed(s)
  {
    match s
    case N => Identity
    case Number(d) => ConstValue(Decimal(d))
    case Operand(text) => ConstValue(Wcstoul(text).0)
    case Paren(_, inner, _) => Tree(inner)
    case Bang(_, a) => Not(Tree(a))
    case Infix(op, a, _, _, b) => Binary(op, Tree(a), Tree(b))
    case Question(c, _, _, a, _, _, b) => Ternary(Some(Tree(c)), Some(Tree(a)), Some(Tree(b)))
  }

  lemma {:induction false} TreeIsComplete(s: Syntax)
    requires Formed(s)
    ensures Complete(Tree(s))
  {
    match s
    case N =>
    case Number(_) =>
    case Operand(_) =>
    case Paren(_, inner, _) => TreeIsComplete(inner);
    case Bang(_, a) => TreeIsComplete(a);
    case Infix(_, a, _, _, b) => TreeIsComplete(a); TreeIsComplete(b);
    case Question(c, _, _, a, _, _, b) => TreeIsComplete(c); TreeIsComplete(a); TreeIsComplete(b);
  }

  lemma {:induction false} ShowEnds(s: Syntax)
    requires Legal(s)
    ensures Show(s) != "" && Opening(Show(s)[0]) && Closing(Show(s)[|Show(s)| - 1])
    ensures Level(s) >= PARENTHESIZED ==> Show(s)[0] != '!'
  {
    match s
    case N =>
    case Number(_) =>
    case Paren(_, _, _) =>
    case Bang(_, a) => ShowEnds(a);
    case Infix(_, a, _, _, b) => ShowEnds(a); ShowEnds(b);
    case Question(c, _, _, _, _, _, b) => ShowEnds(c); ShowEnds(b);
  }

  /** No blanks at either end. */
  predicate Clean(s: string) {
    s != "" ==> !IsSpace(s[0]) && !IsSpace(s[|s| - 1])
  }

  lemma {:induction false} TrimBlank(w: string, s: string)
    requires Blank(w) && Clean(s)
    ensures Trim(w + s) == s
  {
    if w == "" {
      assert w + s == s;
    } else {
      assert (w + s)[1..] == w[1..] + s;
      TrimBlank(w[1..], s);
      assert TrimFront(w + s) == TrimFront(w[1..] + s);
    }
  }

  /** Blanks on both sides go. */
  lemma {:induction false} TrimBoth(v: string, s: string, w: string)
    requires Blank(v) && Blank(w) && Clean(s) && s != ""
    ensures Trim(v + s + w) == s
  {
    TrimFrontBlank(v, s + w);
    assert v + (s + w) == v + s + w;
    TrimBackBlank(s, w);
  }

  lemma {:induction false} TrimFrontBlank(v: string, s: string)
    requires Blank(v) && s != "" && !IsSpace(s[0])
    ensures TrimFront(v + s) == s
  {
    if v == "" {
      assert v + s == s;
    } else {
      assert (v + s)[1..] == v[1..] + s;
      TrimFrontBlank(v[1..], s);
    }
  }

  lemma {:induction false} TrimBackBlank(s: string, w: string)
    requires Blank(w) && s != "" && !IsSpace(s[|s| - 1])
    ensures TrimBack(s + w) == s
  {
    if w == "" {
      assert s + w == s;
    } else {
      assert (s + w)[..|s + w| - 1] == s + w[..|w| - 1];
      TrimBackBlank(s, w[..|w| - 1]);
    }
  }

  /** The level at which an operator starting with this character would be read on; -1 for others. */
  function Continues(c: char): int {
    if c == '?' then TERNARY
    else if c == '|' then DISJUNCTION
    else if c == '&' then CONJUNCTION
    else if c == '=' || c == '!' then EQUALITY
    else if c == '<' || c == '>' then COMPARISON
    else if c == '+' || c == '-' then ADDITIVE
    else if c == '*' || c == '/' || c == '%' then MULTIPLICATIVE
    else -1
  }

  /** After a formula of level `level` come blanks and then a text that does not continue it. */
  predicate Follows(level: nat, w: string, rest: string) {
    && Blank(w) && Clean(rest)
    && (rest == "" ==> w == "")
    && (rest != "" ==> Continues(rest[0]) < level)
  }

  lemma SymbolStarts(op: BinOp)
    ensures Symbol(op) != "" && Continues(Symbol(op)[0]) == LevelOf(op)
    ensures DISJUNCTION <= LevelOf(op) <= MULTIPLICATIVE
    ensures Clean(Symbol(op)) && !IsDigit(Symbol(op)[0])
  {
  }

  lemma OperatorsOfLevel(level: nat, i: nat)
    requires DISJUNCTION <= level <= MULTIPLICATIVE && i < |Operators(level)|
    ensures LevelOf(Operators(level)[i]) == level
  {
  }

  /** Nothing of this level can be read. */
  lemma {:induction false} NothingToReduce(level: nat, ops: seq<BinOp>, lhs: Form, rest: string)
    requires DISJUNCTION <= level <= MULTIPLICATIVE && rest != "" && Continues(rest[0]) < level
    requires forall i :: 0 <= i < |ops| ==> LevelOf(ops[i]) == level
    ensures Reduce(level, ops, lhs, rest) == Parsed(None, rest)
    decreases |ops|
  {
    if ops != [] {
      SymbolStarts(ops[0]);
      assert !Starts(rest, Symbol(ops[0]));
      NothingToReduce(level, ops[1..], lhs, rest);
    }
  }

  lemma ExtendStops(level: nat, lhs: Form, rest: string)
    requires DISJUNCTION <= level <= MULTIPLICATIVE && (rest != "" ==> Continues(rest[0]) < level)
    ensures Extend(level, lhs, rest) == Parsed(Some(lhs), rest)
  {
    if rest != "" {
      forall i | 0 <= i < |Operators(level)| ensures LevelOf(Operators(level)[i]) == level {
        OperatorsOfLevel(level, i);
      }
      NothingToReduce(level, Operators(level), lhs, rest);
    }
  }

  /** When an operator is tried within its level. */
  function Turn(op: BinOp): (i: nat)
    ensures i < |Operators(LevelOf(op))| && Operators(LevelOf(op))[i] == op
  {
    match op
    case NotEqual => 1
    case GreaterEq => 1
    case Less => 2
    case Greater => 3
    case Sub => 1
    case Div => 1
    case Mod => 2
    case _ => 0
  }

  /** `<` is not mistaken for `<=`, nor `>` for `>=`. */
  lemma EarlierDiffers(op: BinOp, j: nat, rest: string, tail: string)
    requires rest == Symbol(op) + tail && Apart(op, tail) && j < Turn(op)
    ensures !Starts(rest, Symbol(Operators(LevelOf(op))[j]))
  {
    assert rest[0] == Symbol(op)[0];
    assert |Symbol(op)| == 1 && tail != "" ==> rest[1] == tail[0];
  }

  /** The operator at the front of the rest is the one that is found, whatever is tried before it. */
  lemma {:induction false} ReduceFinds(level: nat, ops: seq<BinOp>, op: BinOp, lhs: Form, rest: string, tail: string)
    requires DISJUNCTION <= level <= MULTIPLICATIVE && ops == Operators(level) && level == LevelOf(op)
    requires rest == Symbol(op) + tail && Apart(op, tail)
    requires Parse(level + 1, Trim(tail)).form.Some?
    ensures var next := Parse(level + 1, Trim(tail));
            Reduce(level, ops, lhs, rest) == Parsed(Some(Binary(op, lhs, next.form.value)), Trim(next.rest))
  {
    hide Parse;
    assert rest[|Symbol(op)|..] == tail;
    assert Starts(rest, Symbol(op));
    var i := Turn(op);
    forall j | 0 <= j < i ensures !Starts(rest, Symbol(ops[j])) {
      EarlierDiffers(op, j, rest, tail);
    }
    ReduceSkips(level, ops, i, lhs, rest, tail);
  }

  lemma {:induction false} ReduceSkips(level: nat, ops: seq<BinOp>, i: nat, lhs: Form, rest: string, tail: string)
    requires DISJUNCTION <= level <= MULTIPLICATIVE && i < |ops|
    requires Starts(rest, Symbol(ops[i])) && Parse(level + 1, Trim(rest[|Symbol(ops[i])|..])).form.Some?
    requires forall j :: 0 <= j < i ==> !Starts(rest, Symbol(ops[j]))
    ensures Reduce(level, ops, lhs, rest) == ReduceOne(level, ops[i], lhs, rest)
  {
    if i > 0 {
      assert ops[1..][i - 1] == ops[i];
      assert !Starts(rest, Symbol(ops[0]));
      forall j | 0 <= j < i - 1 ensures !Starts(rest, Symbol(ops[1..][j])) {
        assert ops[1..][j] == ops[j + 1];
      }
      ReduceSkips(level, ops[1..], i - 1, lhs, rest, tail);
    }
  }

  /** One turn of the loop: an operator and its right operand are read. */
  lemma ExtendReads(level: nat, op: BinOp, lhs: Form, w: string, rhs: Syntax, v: string, rest: string)
    requires level == LevelOf(op) && DISJUNCTION <= level <= MULTIPLICATIVE && Formed(rhs) && Blank(w) && Clean(rest)
    requires Clean(Show(rhs) + v + rest) && Apart(op, w + (Show(rhs) + v + rest))
    requires Parse(level + 1, Show(rhs) + v + rest) == Parsed(Some(Tree(rhs)), rest)
    ensures Extend(level, lhs, Symbol(op) + w + Show(rhs) + v + rest) ==
            Extend(level, Binary(op, lhs, Tree(rhs)), rest)
  {
    hide Parse, Formed, Tree, Show, Reduce, Trim;
    var operand := Show(rhs) + v + rest;
    var tail := w + operand;
    TrimBlank(w, operand);
    TrimBlank("", rest);
    assert "" + rest == rest;
    SymbolStarts(op);
    assert Symbol(op) + w + Show(rhs) + v + rest == Symbol(op) + tail;
    ReduceFinds(level, Operators(level), op, lhs, Symbol(op) + tail, tail);
  }

  lemma CleanJoin(a: string, v: string, rest: string)
    requires a != "" && Clean(a) && Clean(rest) && (rest == "" ==> v == "")
    ensures Clean(a + v + rest)
  {
  }

  lemma OpeningIsNoSpace(c: char)
    requires Opening(c) || Closing(c)
    ensures !IsSpace(c) && c != '='
  {
  }

  lemma ShowClean(s: Syntax)
    requires Legal(s)
    ensures Show(s) != "" && Clean(Show(s)) && Show(s)[0] != '='
  {
    ShowEnds(s);
    OpeningIsNoSpace(Show(s)[0]);
    OpeningIsNoSpace(Show(s)[|Show(s)| - 1]);
  }

  /** With what follows, a formula that fits starts with no blank, and an atom with no `!`. */
  lemma {:induction false} FitsFront(s: Syntax, after: string)
    requires Formed(s) && Fits(s, after)
    ensures var text := Show(s) + after;
            text != "" && !IsSpace(text[0]) && (Level(s) == PARENTHESIZED ==> text[0] != '!')
    decreases s
  {
    hide Wcstoul, Symbol, Blank;
    match s
    case N =>
    case Number(_) =>
    case Operand(text) => OperandFront(text, after);
    case Paren(_, _, _) =>
    case Bang(_, _) =>
    case Infix(op, a, v, w, b) =>
      hide Show;
      SymbolLevels(s);
      InfixText(s, after);
      FitsFront(a, v + (Symbol(op) + (w + (Show(b) + after))));
    case Question(c, g1, g2, a, g3, g4, b) =>
      hide Show;
      QuestionWhole(s, after);
      FitsFront(c, g1 + ("?" + (g2 + (Show(a) + (g3 + (":" + (g4 + (Show(b) + after))))))));
  }

  lemma OperandFront(text: string, after: string)
    requires Formed(Operand(text)) && Ends(text, after)
    ensures text + after != "" && !IsSpace((text + after)[0]) && (text + after)[0] != '!'
  {
    hide Wcstoul;
    if text == "" {
      assert text + after == after;
    } else {
      NumberFront(text);
      assert (text + after)[0] == text[0];
    }
  }

  lemma InfixText(s: Syntax, after: string)
    requires s.Infix?
    ensures Show(s) + after == Show(s.lhs) + (s.left + (Symbol(s.op) + (s.right + (Show(s.rhs) + after))))
  {
    hide Symbol;
    InfixShown(s, "", after, Symbol(s.op) + s.right + Show(s.rhs) + "" + after);
    assert Show(s) + "" + after == Show(s) + after;
    assert Symbol(s.op) + s.right + Show(s.rhs) + "" + after == Symbol(s.op) + (s.right + (Show(s.rhs) + after));
  }

  lemma NumberFront(text: string)
    requires Wcstoul(text).1 == |text| && text != "" && !IsSpace(text[0])
    ensures IsSign(text[0]) || IsDigit(text[0])
  {
    assert text[0..] == text;
  }

  lemma QuestionWhole(s: Syntax, after: string)
    requires s.Question?
    ensures Show(s) + after ==
            Show(s.cond) + (s.g1 + ("?" + (s.g2 + (Show(s.val) + (s.g3 + (":" + (s.g4 + (Show(s.alt) + after))))))))
  {
    hide Show;
    var Question(c, g1, g2, a, g3, g4, b) := s;
    var no := ":" + g4 + Show(b) + "" + after;
    var yes := "?" + g2 + Show(a) + g3 + no;
    QuestionShown(s, "", after, no, yes);
    assert Show(s) + "" + after == Show(s) + after;
    assert no == ":" + (g4 + (Show(b) + after));
    assert yes == "?" + (g2 + (Show(a) + (g3 + no)));
  }

  /** Alone, it ends with no blank. */
  lemma {:induction false} FitsEnd(s: Syntax)
    requires Formed(s) && Fits(s, "")
    ensures Show(s) != "" && !IsSpace(Show(s)[|Show(s)| - 1])
    decreases s
  {
    hide Wcstoul, Symbol, IsSpace;
    SpaceOrNot();
    match s
    case N =>
    case Number(d) => DigitIsNoSpace(d[|d| - 1]);
    case Operand(text) =>
      NumberEnd(text);
      DigitIsNoSpace(text[|text| - 1]);
    case Paren(_, _, _) =>
    case Bang(_, a) => FitsEnd(a);
    case Infix(_, _, _, _, b) => FitsEnd(b);
    case Question(_, _, _, _, _, _, b) => FitsEnd(b);
  }

  lemma SpaceOrNot()
    ensures !IsSpace('n') && !IsSpace(')')
  {
  }

  lemma DigitIsNoSpace(c: char)
    requires IsDigit(c)
    ensures !IsSpace(c)
  {
  }

  lemma NumberEnd(text: string)
    requires Wcstoul(text).1 == |text| && text != ""
    ensures IsDigit(text[|text| - 1])
  {
    var blank := |text| - |TrimFront(text)|;
    var t := text[blank..];
    var u := if t != "" && IsSign(t[0]) then t[1..] else t;
    RunIsDigits(u);
    assert u[|u| - 1] == text[|text| - 1];
  }

  lemma FitsClean(s: Syntax, w: string, rest: string)
    requires Formed(s) && Fits(s, w + rest) && Clean(rest) && (rest == "" ==> w == "")
    ensures Clean(Show(s) + w + rest) && Show(s) + w + rest != ""
  {
    FitsFront(s, w + rest);
    assert Show(s) + w + rest == Show(s) + (w + rest);
    if rest == "" {
      assert w + rest == "" && Show(s) + w + rest == Show(s);
      FitsEnd(s);
    }
  }

  /** The main theorem: a formula that fits what follows, which does not continue it, is read back as its tree. */
  lemma {:induction false} ParsesBack(level: nat, s: Syntax, w: string, rest: string)
    requires Formed(s) && level <= Level(s) && Follows(level, w, rest) && Fits(s, w + rest)
    ensures Parse(level, Show(s) + w + rest) == Parsed(Some(Tree(s)), rest)
    decreases s, PARENTHESIZED - level, 1
  {
    if level == TERNARY {
      if s.Question? {
        ParsesQuestion(s, w, rest);
      } else {
        ParsesBack(DISJUNCTION, s, w, rest);
      }
    } else if level <= MULTIPLICATIVE {
      ParsesChain(level, s, w, rest);
      ExtendStops(level, Tree(s), rest);
    } else if level == NEGATION {
      ParsesNegation(s, w, rest);
    } else {
      ParsesAtom(s, w, rest);
    }
  }

  lemma LevelIsInfix(s: Syntax, level: nat)
    requires Level(s) == level && DISJUNCTION <= level <= MULTIPLICATIVE
    ensures s.Infix? && LevelOf(s.op) == level
  {
  }

  lemma InfixParts(s: Syntax, after: string)
    requires Formed(s) && s.Infix? && Fits(s, after)
    ensures Fits(s.lhs, s.left + (Symbol(s.op) + (s.right + (Show(s.rhs) + after)))) && Fits(s.rhs, after)
    ensures Apart(s.op, s.right + (Show(s.rhs) + after))
    ensures Formed(s.lhs) && Formed(s.rhs) && Level(s.lhs) >= LevelOf(s.op) && Level(s.rhs) > LevelOf(s.op)
    ensures Blank(s.left) && Blank(s.right) && Tree(s) == Binary(s.op, Tree(s.lhs), Tree(s.rhs))
  {
  }

  /** Reading a left-associative chain reaches the loop with the whole chain on the left. */
  lemma {:induction false} ParsesChain(level: nat, s: Syntax, w: string, rest: string)
    requires DISJUNCTION <= level <= MULTIPLICATIVE && Formed(s) && level <= Level(s) && Follows(level + 1, w, rest)
    requires Fits(s, w + rest)
    ensures Parse(level, Show(s) + w + rest) == Extend(level, Tree(s), rest)
    decreases s, PARENTHESIZED - level, 0
  {
    hide Trim, Formed, Tree, Show, Fits;
    if Level(s) > level {
      ParsesBack(level + 1, s, w, rest);
      TrimBlank("", rest);
      assert "" + rest == rest;
    } else {
      LevelIsInfix(s, level);
      InfixParts(s, w + rest);
      var Infix(op, lhs, v, v1, rhs) := s;
      var after := Symbol(op) + v1 + Show(rhs) + w + rest;
      InfixBehind(op, v1, Show(rhs), w, rest);
      InfixShown(s, w, rest, after);
      FollowsOperand(s, w, rest, after);
      ParsesChain(level, lhs, v, after);
      ParsesBack(level + 1, rhs, w, rest);
      SymbolStarts(op);
      ExtendReads(level, op, Tree(lhs), v1, rhs, w, rest);
    }
  }

  lemma InfixBehind(op: BinOp, gap: string, b: string, w: string, rest: string)
    ensures Symbol(op) + gap + b + w + rest == Symbol(op) + (gap + (b + (w + rest)))
    ensures b + w + rest == b + (w + rest)
  {
    hide Symbol;
    assert Symbol(op) + gap + b + w + rest == Symbol(op) + (gap + b + w + rest);
    assert gap + b + w + rest == gap + (b + w + rest);
  }

  lemma {:induction false} ParsesNegation(s: Syntax, w: string, rest: string)
    requires Formed(s) && Level(s) >= NEGATION && Follows(NEGATION, w, rest) && Fits(s, w + rest)
    ensures ParseNegation(Show(s) + w + rest) == Parsed(Some(Tree(s)), rest)
    decreases s, 1, 0
  {
    hide Trim, Formed, Tree, Show, ParseParenthesized, Fits;
    FitsFront(s, w + rest);
    assert Show(s) + w + rest == Show(s) + (w + rest);
    if s.Bang? {
      var operand := Show(s.operand) + w + rest;
      BangParts(s, w, rest);
      FitsClean(s.operand, w, rest);
      TrimBlank(s.gap, operand);
      ParsesNegation(s.operand, w, rest);
    } else {
      AtomLevel(s);
      ParsesAtom(s, w, rest);
    }
  }

  lemma BangParts(s: Syntax, w: string, rest: string)
    requires Formed(s) && s.Bang?
    ensures forall after :: Fits(s, after) ==> Fits(s.operand, after)
    ensures Blank(s.gap) && Formed(s.operand) && Level(s.operand) >= NEGATION && Tree(s) == Not(Tree(s.operand))
    ensures var text := Show(s) + w + rest; text != "" && text[0] == '!' && text[1..] == s.gap + (Show(s.operand) + w + rest)
  {
    BangJoin(s.gap, Show(s.operand), w, rest);
  }

  lemma BangJoin(gap: string, operand: string, w: string, rest: string)
    ensures var text := "!" + gap + operand + w + rest;
            text != "" && text[0] == '!' && text[1..] == gap + (operand + w + rest)
  {
    var text := "!" + gap + operand + w + rest;
    assert text == "!" + (gap + (operand + w + rest));
  }

  lemma AtomLevel(s: Syntax)
    requires Level(s) >= NEGATION && !s.Bang?
    ensures Level(s) >= PARENTHESIZED
  {
    SymbolLevels(s);
  }

  lemma SymbolLevels(s: Syntax)
    ensures s.Infix? ==> LevelOf(s.op) < NEGATION
  {
  }

  lemma {:induction false} ParsesAtom(s: Syntax, w: string, rest: string)
    requires Formed(s) && Level(s) >= PARENTHESIZED && Follows(PARENTHESIZED, w, rest) && Fits(s, w + rest)
    ensures ParseParenthesized(Show(s) + w + rest) == Parsed(Some(Tree(s)), rest)
    decreases s, 0, 0
  {
    SymbolLevels(s);
    match s
    case N =>
      TrimBlank(w, rest);
      assert ("n" + w + rest)[1..] == w + rest;
    case Number(d) => ParsesNumber(d, w, rest);
    case Operand(text) => ParsesOperand(text, w, rest);
    case Paren(a, inner, b) =>
      var close := ")" + w + rest;
      assert b + close == b + (")" + (w + rest));
      ParsesBackInside(a, inner, b, w, rest);
      ParsesBack(TERNARY, inner, b, close);
      ParsesParen(s, w, rest);
  }

  lemma ParsesNumber(d: string, w: string, rest: string)
    requires Numeral(d) && Follows(PARENTHESIZED, w, rest) && Ends(d, w + rest)
    ensures ParseParenthesized(d + w + rest) == Parsed(Some(ConstValue(Decimal(d))), rest)
  {
    hide Wcstoul, Decimal, Trim;
    ReadsNumber(d, w + rest);
    TrimBlank(w, rest);
    assert d + w + rest == d + (w + rest);
  }

  lemma ParsesOperand(text: string, w: string, rest: string)
    requires Formed(Operand(text)) && Follows(PARENTHESIZED, w, rest) && Ends(text, w + rest)
    ensures ParseParenthesized(text + w + rest) == Parsed(Some(ConstValue(Wcstoul(text).0)), rest)
  {
    hide Wcstoul, Trim;
    NumberReads(text, w + rest);
    TrimBlank(w, rest);
    assert text + w + rest == text + (w + rest);
    assert (text + w + rest)[|text|..] == w + rest;
  }

  /** Number parsing takes what it would take alone. */
  lemma NumberReads(text: string, after: string)
    requires Formed(Operand(text)) && Ends(text, after)
    ensures Wcstoul(text + after) == Wcstoul(text)
    ensures text + after != "" && (text + after)[0] != 'n' && (text + after)[0] != '('
  {
    if text == "" {
      NothingReads(after);
      assert text + after == after;
    } else {
      SomethingReads(text, after);
    }
  }

  lemma NothingReads(after: string)
    requires Ends("", after)
    ensures Wcstoul(after) == Wcstoul("") && after[0] != 'n' && after[0] != '('
  {
    hide Decimal;
    assert after[0..] == after;
  }

  lemma SomethingReads(text: string, after: string)
    requires Formed(Operand(text)) && text != "" && Ends(text, after)
    ensures Wcstoul(text + after) == Wcstoul(text) && (text + after)[0] != 'n' && (text + after)[0] != '('
  {
    hide Decimal;
    var s := text + after;
    NumberFront(text);
    DigitOrSign(text[0]);
    assert s[0] == text[0] && s[0..] == s && text[0..] == text;
    var u := if IsSign(text[0]) then text[1..] else text;
    assert (if IsSign(s[0]) then s[1..] else s) == u + after;
    RunReads(u, after);
  }

  lemma RunReads(u: string, after: string)
    requires DigitRun(u) == |u| && (after != "" ==> !IsDigit(after[0]))
    ensures DigitRun(u + after) == |u| && RunValue(u + after) == RunValue(u)
  {
    hide Decimal;
    RunIsDigits(u);
    RunOfDigits(u, after);
    assert (u + after)[..|u|] == u && u[..|u|] == u;
  }

  lemma DigitOrSign(c: char)
    requires IsDigit(c) || IsSign(c)
    ensures !IsSpace(c) && c != 'n' && c != '('
  {
  }

  /** What stands behind the opening parenthesis, once trimmed. */
  lemma ParsesBackInside(a: string, inner: Syntax, b: string, w: string, rest: string)
    requires Blank(a) && Formed(inner) && Blank(b) && Follows(PARENTHESIZED, w, rest) && Fits(inner, b + (")" + (w + rest)))
    ensures Follows(TERNARY, b, ")" + w + rest)
    ensures Trim(a + Show(inner) + b + (")" + w + rest)) == Show(inner) + b + (")" + w + rest)
  {
    hide Trim, Formed, Show, Fits;
    var close := ")" + w + rest;
    assert b + close == b + (")" + (w + rest));
    CleanJoin(")", w, rest);
    FitsClean(inner, b, close);
    TrimBlank(a, Show(inner) + b + close);
    assert a + (Show(inner) + b + close) == a + Show(inner) + b + close;
  }

  lemma ParsesParen(s: Syntax, w: string, rest: string)
    requires Formed(s) && s.Paren? && Follows(PARENTHESIZED, w, rest) && Fits(s, w + rest)
    requires ParseTernary(Show(s.inner) + s.after + (")" + w + rest)) == Parsed(Some(Tree(s.inner)), ")" + w + rest)
    ensures ParseParenthesized(Show(s) + w + rest) == Parsed(Some(Tree(s)), rest)
  {
    hide ParseTernary, Trim, Show;
    var Paren(a, inner, b) := s;
    var close, inside := ")" + w + rest, a + Show(inner) + b + (")" + w + rest);
    ParsesBackInside(a, inner, b, w, rest);
    TrimBlank(w, rest);
    ParenShown(s, w, rest);
    assert ("(" + inside)[1..] == inside;
    assert close[1..] == w + rest;
  }

  lemma ParenShown(s: Syntax, w: string, rest: string)
    requires s.Paren?
    ensures Show(s) + w + rest == "(" + (s.before + Show(s.inner) + s.after + (")" + w + rest))
  {
    var x := "(" + s.before + Show(s.inner) + s.after;
    assert Show(s) == x + ")";
    assert x == "(" + (s.before + Show(s.inner) + s.after);
  }

  lemma InfixShown(s: Syntax, w: string, rest: string, after: string)
    requires s.Infix? && after == Symbol(s.op) + s.right + Show(s.rhs) + w + rest
    ensures Show(s) + w + rest == Show(s.lhs) + s.left + after
  {
    hide Symbol;
    var x := Show(s.lhs) + s.left;
    assert Show(s) == x + (Symbol(s.op) + s.right + Show(s.rhs));
    assert Show(s) + w + rest == x + (Symbol(s.op) + s.right + Show(s.rhs) + w + rest);
  }

  /** What follows the left operand does not continue it. */
  lemma FollowsOperand(s: Syntax, w: string, rest: string, after: string)
    requires s.Infix? && Formed(s) && after == Symbol(s.op) + s.right + Show(s.rhs) + w + rest
    requires Clean(rest) && (rest == "" ==> w == "") && Fits(s.rhs, w + rest)
    ensures Clean(Show(s.rhs) + w + rest) && Follows(LevelOf(s.op) + 1, s.left, after)
  {
    hide Show, Fits;
    SymbolStarts(s.op);
    FitsClean(s.rhs, w, rest);
    CleanJoin(Symbol(s.op), s.right, Show(s.rhs) + w + rest);
    assert Symbol(s.op) + s.right + (Show(s.rhs) + w + rest) == after;
    assert after[0] == Symbol(s.op)[0];
  }

  /** wcstoul reads exactly the digits. */
  lemma ReadsNumber(d: string, rest: string)
    requires Digits(d) && Decimal(d) < LIMIT && (rest != "" ==> !IsDigit(rest[0]))
    ensures Wcstoul(d + rest) == (Decimal(d), |d|) && (d + rest)[|d|..] == rest
    ensures (d + rest)[0] != 'n' && (d + rest)[0] != '('
  {
    hide Decimal, DigitRun;
    var text := d + rest;
    RunOfDigits(d, rest);
    assert text[0] == d[0] && text[..|d|] == d;
    assert TrimFront(text) == text;
    assert text[0..] == text;
  }

  /** Digits with a sign: the number or, behind a minus, what adds up to 2^64 with it; the largest one if it is too large. */
  lemma ReadsSigned(d: string, rest: string, sign: string)
    requires Digits(d) && (rest != "" ==> !IsDigit(rest[0]))
    requires sign == "" || sign == "+" || sign == "-"
    ensures var v, (value, read) := Decimal(d), Wcstoul(sign + (d + rest));
            && read == |sign + d|
            && value == (if v > 18446744073709551615 then 18446744073709551615
                         else if sign == "-" && v > 0 then 18446744073709551616 - v else v)
  {
    hide Decimal, DigitRun, RunValue;
    var text, body, v := sign + (d + rest), d + rest, Decimal(d);
    RunIs(d, rest);
    assert text[0] == if sign == "" then d[0] else sign[0];
    assert TrimFront(text) == text && text[0..] == text;
    if sign != "" {
      assert text[1..] == body;
      if v < LIMIT {
        WrapOnce(LIMIT - v);
      }
    } else {
      assert text == body && body[0] != '-' && body[0] != '+';
    }
  }

  lemma RunIs(d: string, rest: string)
    requires Digits(d) && (rest != "" ==> !IsDigit(rest[0]))
    ensures d != "" && IsDigit(d[0]) && DigitRun(d + rest) == |d| > 0 && RunValue(d + rest) == Decimal(d)
  {
    RunOfDigits(d, rest);
    assert (d + rest)[..|d|] == d;
  }

  lemma {:induction false} ParsesQuestion(s: Syntax, w: string, rest: string)
    requires Formed(s) && s.Question? && Follows(TERNARY, w, rest) && Fits(s, w + rest)
    ensures ParseTernary(Show(s) + w + rest) == Parsed(Some(Tree(s)), rest)
    decreases s, 0, 0
  {
    var Question(c, g1, g2, a, g3, g4, b) := s;
    var no := ":" + g4 + Show(b) + w + rest;
    var yes := "?" + g2 + Show(a) + g3 + no;
    QuestionText(s, w, rest, no, yes);
    ParsesBack(DISJUNCTION, c, g1, yes);
    ParsesBack(TERNARY, a, g3, no);
    ParsesBack(TERNARY, b, w, rest);
    QuestionSteps(s, w, rest, no, yes);
  }

  /** How the text of a conditional falls into its parts. */
  lemma QuestionText(s: Syntax, w: string, rest: string, no: string, yes: string)
    requires Formed(s) && s.Question? && Follows(TERNARY, w, rest) && Fits(s, w + rest)
    requires no == ":" + s.g4 + Show(s.alt) + w + rest && yes == "?" + s.g2 + Show(s.val) + s.g3 + no
    ensures Show(s) + w + rest == Show(s.cond) + s.g1 + yes
    ensures Follows(DISJUNCTION, s.g1, yes) && Follows(TERNARY, s.g3, no)
    ensures Fits(s.cond, s.g1 + yes) && Fits(s.val, s.g3 + no) && Fits(s.alt, w + rest)
    ensures yes[0] == '?' && Trim(yes[1..]) == Show(s.val) + s.g3 + no
    ensures no[0] == ':' && Trim(no[1..]) == Show(s.alt) + w + rest
  {
    hide Trim, Fits, Show, Formed, Blank, Follows, Clean;
    FollowsRest(TERNARY, w, rest);
    QuestionShown(s, w, rest, no, yes);
    QuestionParts(s, w + rest);
    PartBehind(":", s.g4, Show(s.alt), w, rest);
    PartFollows(TERNARY, s.g3, s.alt, ":", s.g4, w, rest);
    PartBehind("?", s.g2, Show(s.val), s.g3, no);
    PartFollows(DISJUNCTION, s.g1, s.val, "?", s.g2, s.g3, no);
  }

  lemma FollowsRest(level: nat, w: string, rest: string)
    requires Follows(level, w, rest)
    ensures Clean(rest) && (rest == "" ==> w == "")
  {
  }

  /** A part of a conditional behind its mark: it follows what is before, and trimming bares it. */
  lemma PartFollows(level: nat, before: string, part: Syntax, mark: string, gap: string, w: string, rest: string)
    requires Formed(part) && Blank(gap) && Clean(rest) && (rest == "" ==> w == "") && Fits(part, w + rest)
    requires Blank(before) && (mark == ":" || (mark == "?" && level > TERNARY))
    ensures var text := mark + gap + Show(part) + w + rest;
            Follows(level, before, text) && Clean(text) && text[0] == mark[0] && Trim(text[1..]) == Show(part) + w + rest
  {
    hide Trim, Fits, Show, Formed;
    PartText(part, mark, gap, w, rest);
  }

  lemma PartBehind(mark: string, gap: string, a: string, w: string, rest: string)
    ensures mark + gap + a + w + rest == mark + (gap + (a + (w + rest)))
  {
    assert mark + gap + a + w + rest == mark + (gap + a + w + rest);
    assert gap + a + w + rest == gap + (a + w + rest);
  }

  lemma QuestionParts(s: Syntax, after: string)
    requires Formed(s) && s.Question? && Fits(s, after)
    ensures Formed(s.cond) && Formed(s.val) && Formed(s.alt)
    ensures Blank(s.g1) && Blank(s.g2) && Blank(s.g3) && Blank(s.g4)
    ensures var no := ":" + (s.g4 + (Show(s.alt) + after));
            var yes := "?" + (s.g2 + (Show(s.val) + (s.g3 + no)));
            Fits(s.cond, s.g1 + yes) && Fits(s.val, s.g3 + no) && Fits(s.alt, after)
  {
  }

  lemma QuestionShown(s: Syntax, w: string, rest: string, no: string, yes: string)
    requires s.Question?
    requires no == ":" + s.g4 + Show(s.alt) + w + rest && yes == "?" + s.g2 + Show(s.val) + s.g3 + no
    ensures Show(s) + w + rest == Show(s.cond) + s.g1 + yes
  {
    var Question(c, g1, g2, a, g3, g4, b) := s;
    var x := Show(c) + g1;
    var y := x + "?" + g2 + Show(a) + g3;
    assert Show(s) == y + ":" + g4 + Show(b);
    assert Show(s) + w + rest == y + no;
    assert y + no == x + yes;
  }

  lemma PartText(part: Syntax, mark: string, gap: string, w: string, rest: string)
    requires Formed(part) && |mark| == 1 && Clean(mark) && Blank(gap) && Clean(rest) && (rest == "" ==> w == "")
    requires Fits(part, w + rest)
    ensures var text := mark + gap + Show(part) + w + rest;
            Clean(text) && text[0] == mark[0] && Trim(text[1..]) == Show(part) + w + rest
  {
    hide Trim, Formed, Show, Fits;
    var operand := Show(part) + w + rest;
    FitsClean(part, w, rest);
    CleanJoin(mark, gap, operand);
    assert mark + gap + operand == mark + gap + Show(part) + w + rest;
    assert (mark + gap + operand)[1..] == gap + operand;
    TrimBlank(gap, operand);
  }

  lemma QuestionSteps(s: Syntax, w: string, rest: string, no: string, yes: string)
    requires Formed(s) && s.Question?
    requires Show(s) + w + rest == Show(s.cond) + s.g1 + yes
    requires yes != "" && yes[0] == '?' && Trim(yes[1..]) == Show(s.val) + s.g3 + no
    requires no != "" && no[0] == ':' && Trim(no[1..]) == Show(s.alt) + w + rest
    requires Parse(DISJUNCTION, Show(s.cond) + s.g1 + yes) == Parsed(Some(Tree(s.cond)), yes)
    requires ParseTernary(Show(s.val) + s.g3 + no) == Parsed(Some(Tree(s.val)), no)
    requires ParseTernary(Show(s.alt) + w + rest) == Parsed(Some(Tree(s.alt)), rest)
    ensures ParseTernary(Show(s) + w + rest) == Parsed(Some(Tree(s)), rest)
  {
    hide Parse, Trim, Show;
  }

  /** A formula of C fits whatever does not go on with a number. */
  lemma {:induction false} LegalFits(s: Syntax, after: string)
    requires Legal(s) && (after != "" ==> !IsDigit(after[0]))
    ensures Fits(s, after)
    decreases s
  {
    hide Wcstoul;
    match s
    case N =>
    case Number(_) =>
    case Operand(_) =>
    case Paren(_, inner, b) =>
      BlankFront(b, ")" + after);
      LegalFits(inner, b + (")" + after));
    case Bang(_, a) => LegalFits(a, after);
    case Infix(op, a, v, w, b) =>
      hide Show, Symbol;
      var tail := w + (Show(b) + after);
      SymbolStarts(op);
      ShowClean(b);
      BlankFront(v, Symbol(op) + tail);
      BlankFront(w, Show(b) + after);
      LegalFits(a, v + (Symbol(op) + tail));
      LegalFits(b, after);
    case Question(c, g1, g2, a, g3, g4, b) =>
      hide Show;
      var no := ":" + (g4 + (Show(b) + after));
      var yes := "?" + (g2 + (Show(a) + (g3 + no)));
      BlankFront(g1, yes);
      BlankFront(g3, no);
      LegalFits(c, g1 + yes);
      LegalFits(a, g3 + no);
      LegalFits(b, after);
  }

  lemma BlankFront(w: string, s: string)
    requires Blank(w) && s != ""
    ensures var text := w + s; text[0] == s[0] || (IsSpace(text[0]) && !IsDigit(text[0]) && text[0] != '=')
  {
  }
}
