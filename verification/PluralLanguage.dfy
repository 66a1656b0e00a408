/** What the parser of plural forms accepts, and what it makes of it: nothing but formulas of C,
    up to operands that are signed, too large or missing, and conditionals that lack a part. */
module PluralLanguage {
  import opened Options
  import opened Numerals
  import opened PluralForm
  import opened PluralParser
  import opened PluralSyntax
  import opened PluralHeader

  /** No blank at the end. */
  predicate Ended(s: string) {
    s != "" ==> !IsSpace(s[|s| - 1])
  }

  /** No blank at either end, so that trimming does nothing. */
  lemma {:induction false} FrontGoes(s: string) returns (w: string)
    requires Ended(s)
    ensures Blank(w) && s == w + Trim(s) && Clean(Trim(s))
    decreases |s|
  {
    hide Blank;
    NoBlanks();
    if s == "" || !IsSpace(s[0]) {
      w := "";
      TrimBlank("", s);
      assert "" + s == s;
    } else {
      var v := FrontGoes(s[1..]);
      w := [s[0]] + v;
      BlankMore(s[0], v);
      assert TrimFront(s) == TrimFront(s[1..]);
      assert s == [s[0]] + s[1..];
    }
  }

  lemma BlankMore(c: char, w: string)
    requires IsSpace(c) && Blank(w)
    ensures Blank([c] + w)
  {
  }

  lemma TailEnded(s: string, k: nat)
    requires Ended(s) && k <= |s|
    ensures Ended(s[k..])
  {
  }

  lemma {:induction false} RunOfRun(s: string)
    ensures DigitRun(s[..DigitRun(s)]) == DigitRun(s)
  {
    var n := DigitRun(s);
    if n > 0 {
      assert s[..n][1..] == s[1..][..n - 1];
      RunOfRun(s[1..]);
    }
  }

  /** Number parsing depends on nothing but what it reads. */
  lemma NumberAlone(s: string)
    requires s != "" ==> !IsSpace(s[0])
    ensures var (value, read) := Wcstoul(s); Wcstoul(s[..read]) == (value, read)
  {
    var (value, read) := Wcstoul(s);
    var text := s[..read];
    assert s[0..] == s && text[0..] == text;
    var signed := s != "" && (s[0] == '-' || s[0] == '+');
    var u := if signed then s[1..] else s;
    RunOfRun(u);
    if read > 0 {
      var run := u[..DigitRun(u)];
      assert text[0] == s[0] && !IsSpace(text[0]);
      assert if signed then text[1..] == run else text == run;
      assert run[..DigitRun(run)] == run;
    } else {
      assert text == "";
    }
  }

  /** What it reads is a numeral of C with its value, or something else that it takes. */
  lemma NumberSpelled(s: string) returns (t: Syntax)
    requires s != "" ==> !IsSpace(s[0])
    ensures var (value, read) := Wcstoul(s);
            && Formed(t) && Level(t) == PARENTHESIZED && Show(t) == s[..read] && Tree(t) == ConstValue(value)
            && forall after :: Ends(s[..read], after) ==> Fits(t, after)
  {
    var (value, read) := Wcstoul(s);
    var text := s[..read];
    NumberAlone(s);
    if Numeral(text) {
      t := Number(text);
      NumeralValue(text);
    } else {
      t := Operand(text);
    }
  }

  lemma NumeralValue(d: string)
    requires Numeral(d)
    ensures Wcstoul(d).0 == Decimal(d)
  {
    ReadsNumber(d, "");
    assert d + "" == d;
  }

  /** `t`, blanks, and what is left: that is what was read. */
  ghost predicate Spells(level: nat, s: string, r: Result, t: Syntax, w: string) {
    && Formed(t) && Level(t) >= level && r.form == Some(Tree(t)) && Fits(t, w + r.rest)
    && Blank(w) && Clean(r.rest) && s == Show(t) + w + r.rest
  }

  lemma {:induction false} RunStops(s: string)
    ensures DigitRun(s) < |s| ==> !IsDigit(s[DigitRun(s)])
  {
    if s != "" && IsDigit(s[0]) {
      RunStops(s[1..]);
    }
  }

  /** Number parsing stops where the number ends. */
  lemma NumberEnds(s: string)
    requires s != "" && !IsSpace(s[0]) && s[0] != 'n' && s[0] != '(' && s[0] != '!'
    ensures Ends(s[..Wcstoul(s).1], s[Wcstoul(s).1..])
  {
    var read := Wcstoul(s).1;
    assert s[0..] == s;
    var u := if IsSign(s[0]) then s[1..] else s;
    RunStops(u);
    if read > 0 && read < |s| {
      assert s[read..][0] == s[read] == u[DigitRun(u)];
    } else if read == 0 {
      assert s[..0] == "" && s[0..] == s;
      assert IsSign(s[0]) && |s| > 1 ==> u[0] == s[1];
    }
  }

  /** An atom that was read, followed by blanks and what is left. */
  lemma AtomSpelled(s: string) returns (t: Syntax, w: string)
    requires Clean(s) && s != "" && s[0] != '(' && s[0] != '!'
    ensures Level(t) == PARENTHESIZED && Spells(PARENTHESIZED, s, ParseAtomic(s), t, w)
  {
    hide Wcstoul, Trim, Formed, Level, Show, Tree, Ends;
    if s[0] == 'n' {
      t := NSpelled();
      w := FrontGoes(s[1..]);
      assert s == "n" + s[1..];
    } else {
      t := NumberSpelled(s);
      var read := Wcstoul(s).1;
      NumberEnds(s);
      w := FrontGoes(s[read..]);
      assert s == s[..read] + s[read..];
    }
  }

  lemma NSpelled() returns (t: Syntax)
    ensures t == N && Formed(t) && Level(t) == PARENTHESIZED && Show(t) == "n" && Tree(t) == Identity
  {
    t := N;
  }

  predicate Whole(r: Result) {
    r.form.Some? && !HasGap(r.form.value)
  }

  /** Trimming what is clean does nothing. */
  lemma CleanStays(s: string)
    requires Clean(s)
    ensures Trim(s) == s
  {
    TrimBlank("", s);
    assert "" + s == s;
  }

  /** Some operator of the level was read. */
  lemma {:induction false} ReduceIs(level: nat, ops: seq<BinOp>, lhs: Form, rest: string) returns (op: BinOp)
    requires DISJUNCTION <= level <= MULTIPLICATIVE && Reduce(level, ops, lhs, rest).form.Some?
    ensures op in ops && Reduce(level, ops, lhs, rest) == ReduceOne(level, op, lhs, rest)
    ensures exists i :: FirstOf(ops, op, rest, i)
    decreases |ops|
  {
    hide ReduceOne;
    var next := ReduceOne(level, ops[0], lhs, rest);
    if next.form.Some? {
      op := ops[0];
      assert FirstOf(ops, op, rest, 0);
    } else {
      op := ReduceIs(level, ops[1..], lhs, rest);
      var i :| FirstOf(ops[1..], op, rest, i);
      assert !Starts(rest, Symbol(ops[0]));
      forall j | 0 <= j < i + 1 ensures !Starts(rest, Symbol(ops[j])) {
        if j > 0 { assert ops[1..][j - 1] == ops[j]; }
      }
      assert FirstOf(ops, op, rest, i + 1);
    }
  }

  /** No operator that is tried before this one is in front. */
  ghost predicate FirstOf(ops: seq<BinOp>, op: BinOp, rest: string, i: int) {
    0 <= i < |ops| && ops[i] == op && forall j :: 0 <= j < i ==> !Starts(rest, Symbol(ops[j]))
  }

  lemma FirstIsApart(level: nat, op: BinOp, rest: string)
    requires DISJUNCTION <= level <= MULTIPLICATIVE && Starts(rest, Symbol(op))
    requires exists i :: FirstOf(Operators(level), op, rest, i)
    ensures Apart(op, rest[|Symbol(op)|..])
  {
    var i :| FirstOf(Operators(level), op, rest, i);
    var tail := rest[|Symbol(op)|..];
    OperatorLevel(level, op);
    if (op == Less || op == Greater) && tail != "" {
      var j := if op == Less then 0 else 1;
      assert j < i && !Starts(rest, Symbol(Operators(level)[j]));
      assert Symbol(Operators(level)[j]) == [Symbol(op)[0], '='];
      assert rest[..2] == [Symbol(op)[0], tail[0]];
    }
  }

  lemma OperatorLevel(level: nat, op: BinOp)
    requires DISJUNCTION <= level <= MULTIPLICATIVE && op in Operators(level)
    ensures LevelOf(op) == level
  {
  }

  /** What the loop makes has every gap of what it started from. */
  lemma {:induction false} ExtendGaps(level: nat, lhs: Form, rest: string)
    requires DISJUNCTION <= level <= MULTIPLICATIVE
    ensures Extend(level, lhs, rest).form.Some?
    ensures HasGap(lhs) ==> HasGap(Extend(level, lhs, rest).form.value)
    decreases |rest|
  {
    hide Reduce, Parse, Trim;
    if rest != "" {
      var next := Reduce(level, Operators(level), lhs, rest);
      if next.form.Some? {
        var op := ReduceIs(level, Operators(level), lhs, rest);
        ExtendGaps(level, next.form.value, Trim(next.rest));
      }
    }
  }

  /** Parser soundness: whatever a parser makes a form without gaps of is a formula that spells it. */
  lemma {:induction false} Spelled(level: nat, s: string) returns (t: Syntax, w: string)
    requires level <= NEGATION && Clean(s) && Whole(Parse(level, s))
    ensures Spells(level, s, Parse(level, s), t, w)
    decreases |s|, PARENTHESIZED - level, 3
  {
    hide Spells, Whole, ParseTernary, ParseLtr, ParseNegation, ParseParenthesized, Clean;
    if level == TERNARY {
      t, w := TernarySpelled(s);
    } else if level <= MULTIPLICATIVE {
      t, w := LtrSpelled(level, s);
    } else {
      t, w := NegationSpelled(s);
    }
  }

  lemma {:induction false} ParenSpelled(s: string) returns (t: Syntax, w: string)
    requires Clean(s) && s != "" && s[0] != '!' && Whole(ParseParenthesized(s))
    ensures Spells(PARENTHESIZED, s, ParseParenthesized(s), t, w)
    decreases |s|, 0, 2
  {
    hide ParseTernary, ParseAtomic, Trim, Formed, Level, Show, Tree, Fits;
    if s[0] != '(' {
      t, w := AtomSpelled(s);
    } else {
      TailEnded(s, 1);
      var a := FrontGoes(s[1..]);
      var text := Trim(s[1..]);
      var inner, b := Spelled(TERNARY, text);
      var r := ParseTernary(text);
      TailEnded(r.rest, 1);
      w := FrontGoes(r.rest[1..]);
      t := Paren(a, inner, b);
      ParenFormed(a, inner, b, w + Trim(r.rest[1..]), r.rest);
      ParenJoined(s, a, inner, b, w, Trim(r.rest[1..]), text, r.rest);
    }
  }

  lemma ParenFormed(a: string, inner: Syntax, b: string, after: string, close: string)
    requires Blank(a) && Blank(b) && Formed(inner) && Fits(inner, b + close)
    requires close != "" && close[0] == ')' && close[1..] == after
    ensures var t := Paren(a, inner, b); Formed(t) && Level(t) == PARENTHESIZED && Tree(t) == Tree(inner) && Fits(t, after)
  {
    assert close == ")" + after;
  }

  lemma ParenJoined(s: string, a: string, inner: Syntax, b: string, w: string, rest: string, text: string, close: string)
    requires s != "" && s[0] == '(' && s[1..] == a + text && text == Show(inner) + b + close
    requires close != "" && close[0] == ')' && close[1..] == w + rest
    ensures s == Show(Paren(a, inner, b)) + w + rest
  {
    hide Show;
    HeadTail(s);
    HeadTail(close);
    ParenShown(Paren(a, inner, b), w, rest);
    JoinBehind(Show(inner), b, w, rest, ")");
    JoinFront("(", a, Show(inner) + b + (")" + w + rest));
  }

  lemma HeadTail(s: string)
    requires s != ""
    ensures s == [s[0]] + s[1..]
  {
  }

  lemma JoinBehind(x: string, b: string, w: string, rest: string, mark: string)
    ensures x + b + (mark + (w + rest)) == x + b + (mark + w + rest)
  {
    assert mark + (w + rest) == mark + w + rest;
  }

  lemma JoinFront(mark: string, a: string, x: string)
    ensures mark + (a + x) == mark + a + x
  {
  }

  lemma {:induction false} NegationSpelled(s: string) returns (t: Syntax, w: string)
    requires Clean(s) && Whole(ParseNegation(s))
    ensures Spells(NEGATION, s, ParseNegation(s), t, w)
    decreases |s|, 1, 2
  {
    hide ParseParenthesized, Trim, Formed, Level, Show, Tree, Fits;
    if s[0] != '!' {
      t, w := ParenSpelled(s);
    } else {
      TailEnded(s, 1);
      var gap := FrontGoes(s[1..]);
      var text := Trim(s[1..]);
      var operand;
      operand, w := NegationSpelled(text);
      t := Bang(gap, operand);
      BangFormed(gap, operand, w + ParseNegation(text).rest);
      BangJoin(gap, Show(operand), w, ParseNegation(text).rest);
      BangJoined(s, gap, operand, w, ParseNegation(text).rest);
    }
  }

  lemma BangFormed(gap: string, a: Syntax, after: string)
    requires Blank(gap) && Formed(a) && Level(a) >= NEGATION && Fits(a, after)
    ensures var t := Bang(gap, a); Formed(t) && Level(t) == NEGATION && Tree(t) == Not(Tree(a)) && Fits(t, after)
  {
  }

  lemma BangJoined(s: string, gap: string, a: Syntax, w: string, rest: string)
    requires s != "" && s[0] == '!' && s[1..] == gap + (Show(a) + w + rest)
    ensures s == Show(Bang(gap, a)) + w + rest
  {
    BangJoin(gap, Show(a), w, rest);
    assert s == [s[0]] + s[1..];
    var joined := "!" + gap + Show(a) + w + rest;
    assert joined == [joined[0]] + joined[1..];
  }

  lemma {:induction false} LtrSpelled(level: nat, s: string) returns (t: Syntax, w: string)
    requires DISJUNCTION <= level <= MULTIPLICATIVE && Clean(s) && Whole(ParseLtr(level, s))
    ensures Spells(level, s, ParseLtr(level, s), t, w)
    decreases |s|, PARENTHESIZED - level, 2
  {
    hide Parse, Extend, Trim, Formed, Level, Show, Tree, HasGap, Fits;
    var first := Parse(level + 1, s);
    ExtendGaps(level, first.form.value, Trim(first.rest));
    var a, v := Spelled(level + 1, s);
    CleanStays(first.rest);
    t, w := ExtendSpelled(level, a, v, first.rest);
  }

  lemma {:induction false} ExtendSpelled(level: nat, a: Syntax, v: string, rest: string) returns (t: Syntax, w: string)
    requires DISJUNCTION <= level <= MULTIPLICATIVE && Formed(a) && Level(a) >= level && Blank(v) && Clean(rest)
    requires Whole(Extend(level, Tree(a), rest)) && Fits(a, v + rest)
    ensures Spells(level, Show(a) + v + rest, Extend(level, Tree(a), rest), t, w)
    decreases |rest|, PARENTHESIZED - level, 1
  {
    hide Parse, Trim, Formed, Level, Show, Tree, Reduce, Fits, Apart;
    var next := Reduce(level, Operators(level), Tree(a), rest);
    if rest == "" || next.form.None? {
      t, w := a, v;
    } else {
      ExtendGaps(level, next.form.value, Trim(next.rest));
      var op := ReduceIs(level, Operators(level), Tree(a), rest);
      SymbolStarts(op);
      TailEnded(rest, |Symbol(op)|);
      var gap := FrontGoes(rest[|Symbol(op)|..]);
      OperandWhole(level, op, Tree(a), rest);
      var b, w1 := Spelled(level + 1, Trim(rest[|Symbol(op)|..]));
      var left := TurnSpelled(level, a, v, rest, op, gap, b, w1);
      t, w := ExtendSpelled(level, Infix(op, a, v, gap, b), w1, left);
    }
  }

  lemma OperandWhole(level: nat, op: BinOp, lhs: Form, rest: string)
    requires DISJUNCTION <= level <= MULTIPLICATIVE && Whole(ReduceOne(level, op, lhs, rest))
    ensures Starts(rest, Symbol(op)) && Whole(Parse(level + 1, Trim(rest[|Symbol(op)|..])))
  {
    hide Parse, Trim;
  }

  /** One turn of the loop: what it read is spelled by one more operator and operand. */
  lemma TurnSpelled(level: nat, a: Syntax, v: string, rest: string, op: BinOp, gap: string, b: Syntax, w: string)
    returns (left: string)
    requires DISJUNCTION <= level <= MULTIPLICATIVE && Formed(a) && Level(a) >= level && Blank(v) && Fits(a, v + rest)
    requires op in Operators(level) && (exists i :: FirstOf(Operators(level), op, rest, i)) && Starts(rest, Symbol(op))
    requires var tail := rest[|Symbol(op)|..];
             Blank(gap) && tail == gap + Trim(tail) && Spells(level + 1, Trim(tail), Parse(level + 1, Trim(tail)), b, w)
    ensures var t, next := Infix(op, a, v, gap, b), ReduceOne(level, op, Tree(a), rest);
            && Formed(t) && Level(t) == level && Fits(t, w + left) && next.form == Some(Tree(t)) && Trim(next.rest) == left
            && Blank(w) && Clean(left) && Show(a) + v + rest == Show(t) + w + left
  {
    hide Parse, Trim, Formed, Level, Show, Tree, Fits, Apart, FirstOf;
    var tail := rest[|Symbol(op)|..];
    left := Parse(level + 1, Trim(tail)).rest;
    OperatorLevel(level, op);
    CleanStays(left);
    FirstIsApart(level, op, rest);
    InfixJoined(op, a, v, gap, b, w, left, rest, tail);
    InfixFormed(op, a, v, gap, b, w + left);
  }

  lemma InfixFormed(op: BinOp, a: Syntax, v: string, gap: string, b: Syntax, after: string)
    requires Formed(a) && Formed(b) && Blank(v) && Blank(gap) && Level(a) >= LevelOf(op) && Level(b) > LevelOf(op)
    requires Fits(b, after) && Apart(op, gap + (Show(b) + after)) && Fits(a, v + (Symbol(op) + (gap + (Show(b) + after))))
    ensures var t := Infix(op, a, v, gap, b);
            Formed(t) && Level(t) == LevelOf(op) && Tree(t) == Binary(op, Tree(a), Tree(b)) && Fits(t, after)
  {
  }

  lemma InfixJoined(op: BinOp, a: Syntax, v: string, gap: string, b: Syntax, w: string, left: string,
                    rest: string, tail: string)
    requires Starts(rest, Symbol(op)) && tail == rest[|Symbol(op)|..] && tail == gap + (Show(b) + w + left)
    ensures Show(a) + v + rest == Show(Infix(op, a, v, gap, b)) + w + left
    ensures rest == Symbol(op) + (gap + (Show(b) + (w + left))) && tail == gap + (Show(b) + (w + left))
  {
    hide Symbol;
    InfixBehind(op, gap, Show(b), w, left);
    var after := Symbol(op) + gap + Show(b) + w + left;
    assert rest == Symbol(op) + tail;
    assert rest == after;
    InfixShown(Infix(op, a, v, gap, b), w, left, after);
  }

  lemma {:induction false} TernarySpelled(s: string) returns (t: Syntax, w: string)
    requires Clean(s) && Whole(ParseTernary(s))
    ensures Spells(TERNARY, s, ParseTernary(s), t, w)
    decreases |s|, PARENTHESIZED, 2
  {
    hide Parse, Trim, Formed, Level, Show, Tree, Fits;
    var first := Parse(DISJUNCTION, s);
    if first.rest == "" || first.rest[0] != '?' {
      t, w := Spelled(DISJUNCTION, s);
    } else {
      var c, g1 := Spelled(DISJUNCTION, s);
      TailEnded(first.rest, 1);
      var g2 := FrontGoes(first.rest[1..]);
      var yes := Trim(first.rest[1..]);
      var second := ParseTernary(yes);
      var a, g3 := TernarySpelled(yes);
      TailEnded(second.rest, 1);
      var g4 := FrontGoes(second.rest[1..]);
      var no := Trim(second.rest[1..]);
      var b;
      b, w := TernarySpelled(no);
      t := Question(c, g1, g2, a, g3, g4, b);
      QuestionFormed(t, w + ParseTernary(no).rest, first.rest, yes, second.rest, no);
      QuestionJoined(s, t, w, ParseTernary(no).rest, first.rest, yes, second.rest, no);
    }
  }

  lemma QuestionFormed(t: Syntax, after: string, q: string, yes: string, colon: string, no: string)
    requires t.Question? && Formed(t.cond) && Formed(t.val) && Formed(t.alt) && Level(t.cond) >= DISJUNCTION
    requires Blank(t.g1) && Blank(t.g2) && Blank(t.g3) && Blank(t.g4)
    requires q != "" && q[0] == '?' && q[1..] == t.g2 + yes && yes == Show(t.val) + t.g3 + colon
    requires colon != "" && colon[0] == ':' && colon[1..] == t.g4 + no && no == Show(t.alt) + after
    requires Fits(t.cond, t.g1 + q) && Fits(t.val, t.g3 + colon) && Fits(t.alt, after)
    ensures Formed(t) && Level(t) == TERNARY && Fits(t, after)
    ensures Tree(t) == Ternary(Some(Tree(t.cond)), Some(Tree(t.val)), Some(Tree(t.alt)))
  {
    hide Show, Blank;
    assert colon == ":" + (t.g4 + (Show(t.alt) + after));
    assert yes == Show(t.val) + (t.g3 + colon);
    assert q == "?" + (t.g2 + (Show(t.val) + (t.g3 + colon)));
  }

  lemma QuestionJoined(s: string, t: Syntax, w: string, rest: string, q: string, yes: string, colon: string, no: string)
    requires t.Question? && s == Show(t.cond) + t.g1 + q && q != "" && q[0] == '?' && q[1..] == t.g2 + yes
    requires yes == Show(t.val) + t.g3 + colon && colon != "" && colon[0] == ':' && colon[1..] == t.g4 + no
    requires no == Show(t.alt) + w + rest
    ensures s == Show(t) + w + rest
  {
    hide Show;
    assert q == "?" + q[1..] && colon == ":" + colon[1..];
    var after := ":" + t.g4 + Show(t.alt) + w + rest;
    assert colon == after;
    assert q == "?" + t.g2 + Show(t.val) + t.g3 + after;
    QuestionShown(t, w, rest, after, q);
  }

  /** Trimming takes blanks from both ends. */
  lemma {:induction false} BothEndsGo(s: string) returns (v: string, w: string)
    ensures Blank(v) && Blank(w) && s == v + Trim(s) + w && Clean(Trim(s))
    decreases |s|
  {
    if s != "" && IsSpace(s[|s| - 1]) {
      var n := |s| - 1;
      var w1;
      v, w1 := BothEndsGo(s[..n]);
      w := w1 + [s[n]];
      TrimLast(s);
      assert s == s[..n] + [s[n]];
    } else {
      v := FrontGoes(s);
      w := "";
    }
  }

  lemma {:induction false} TrimLast(s: string)
    requires s != "" && IsSpace(s[|s| - 1])
    ensures Trim(s) == Trim(s[..|s| - 1])
    decreases |s|
  {
    var n := |s| - 1;
    if n > 0 && IsSpace(s[0]) {
      assert s[1..][..n - 1] == s[..n][1..];
      TrimLast(s[1..]);
    } else if n > 0 {
      assert TrimFront(s) == s && TrimFront(s[..n]) == s[..n];
    }
  }

  /** `s` is a formula, possibly with operands that are signed, too large or missing, and blanks around it. */
  predicate IsFormula(s: string, v: string, t: Syntax, w: string) {
    Blank(v) && Blank(w) && Formed(t) && Fits(t, "") && s == v + Show(t) + w
  }

  /** A formula is read as the tree it spells; */
  lemma FormulaIsRead(nplurals: nat, s: string, v: string, t: Syntax, w: string)
    requires nplurals > 0 && IsFormula(s, v, t, w)
    ensures ParseForm(nplurals, s) == Some(Tree(t))
  {
    hide Trim, ParseTernary, Fits;
    assert Show(t) + "" + "" == Show(t) && "" + "" == "";
    FitsClean(t, "", "");
    TrimBoth(v, Show(t), w);
    ParsesBack(TERNARY, t, "", "");
  }

  /** and whatever is read to a form without gaps is a formula that spells it. */
  lemma ReadIsFormula(nplurals: nat, s: string) returns (v: string, t: Syntax, w: string)
    requires ParseForm(nplurals, s).Some? && !HasGap(ParseForm(nplurals, s).value)
    ensures IsFormula(s, v, t, w) && ParseForm(nplurals, s) == Some(Tree(t))
  {
    hide Trim, ParseTernary, Fits, Formed, Tree, Show, Spells;
    v, w := BothEndsGo(s);
    var gap;
    t, gap := Spelled(TERNARY, Trim(s));
    NoGapLeft(s, t, gap);
  }

  lemma NoGapLeft(s: string, t: Syntax, gap: string)
    requires Spells(TERNARY, Trim(s), ParseTernary(Trim(s)), t, gap) && ParseTernary(Trim(s)).rest == "" && Clean(Trim(s))
    ensures Formed(t) && Fits(t, "") && Trim(s) == Show(t) && ParseTernary(Trim(s)).form == Some(Tree(t))
  {
    hide Trim, ParseTernary, Fits, Formed, Tree, Show;
    var text := Trim(s);
    assert text == Show(t) + gap + "" == Show(t) + gap;
    assert Show(t) + gap == Show(t) && gap + "" == "";
  }

  /** The texts that are read to a form without gaps are exactly the formulas. */
  lemma LanguageIsExact(nplurals: nat, s: string)
    requires nplurals > 0
    ensures ParseForm(nplurals, s).Some? && !HasGap(ParseForm(nplurals, s).value) <==>
            exists v, t, w :: IsFormula(s, v, t, w)
  {
    hide ParseForm, IsFormula;
    if ParseForm(nplurals, s).Some? && !HasGap(ParseForm(nplurals, s).value) {
      var v, t, w := ReadIsFormula(nplurals, s);
    }
    if v, t, w :| IsFormula(s, v, t, w) {
      FormulaIsRead(nplurals, s, v, t, w);
      FormedHasNoGap(s, v, t, w);
    }
  }

  lemma FormedHasNoGap(s: string, v: string, t: Syntax, w: string)
    requires IsFormula(s, v, t, w)
    ensures !HasGap(Tree(t))
  {
    TreeIsComplete(t);
    CompleteHasNoGap(Tree(t));
  }

  lemma {:induction false} CompleteHasNoGap(f: Form)
    requires Complete(f)
    ensures !HasGap(f)
  {
    match f
    case Identity =>
    case ConstValue(_) =>
    case Not(a) => CompleteHasNoGap(a);
    case Binary(_, a, b) => CompleteHasNoGap(a); CompleteHasNoGap(b);
    case Ternary(c, a, b) => CompleteHasNoGap(c.value); CompleteHasNoGap(a.value); CompleteHasNoGap(b.value);
  }

  /** Whatever text is accepted, its form yields 0 for every number because a part is missing, or it evaluates as the formula
      does in C, where an operand that is no number of C counts as what was read of it, and a missing one as 0. */
  lemma AcceptedMeans(nplurals: nat, s: string) returns (v: string, t: Syntax, w: string)
    requires nplurals > 0 && ParseForm(nplurals, s).Some?
    ensures var f := ParseForm(nplurals, s).value;
            || (HasGap(f) && forall n :: Evaluate(f, nplurals, n) == Some(0))
            || (&& IsFormula(s, v, t, w)
                && forall n :: Evaluate(f, nplurals, n) == if SkipsDivision(t, n) then None else CValue(t, n))
  {
    hide ParseForm, Evaluate, Formed, Fits, Show, HasGap, SkipsDivision, CValue, Tree;
    var f := ParseForm(nplurals, s).value;
    v, t, w := "", N, "";
    if HasGap(f) {
      forall n ensures Evaluate(f, nplurals, n) == Some(0) {
        GapYieldsZero(f, nplurals, n);
      }
    } else {
      v, t, w := ReadIsFormula(nplurals, s);
      forall n ensures Evaluate(f, nplurals, n) == if SkipsDivision(t, n) then None else CValue(t, n) {
        TreeMeans(t, nplurals, n);
      }
    }
  }

  /** Formulas of C are those without such operands. */
  lemma PlainIsLegal(s: string, v: string, t: Syntax, w: string)
    requires Blank(v) && Blank(w) && s == v + Show(t) + w
    ensures Legal(t) <==> IsFormula(s, v, t, w) && Plain(t)
  {
    if Legal(t) {
      LegalFits(t, "");
    }
  }

  /** `()` is read as 0, */
  lemma MissingIsZero()
    ensures ParseForm(2, "()") == Some(ConstValue(0))
  {
    hide ParseForm, Wcstoul;
    NothingIsZero();
    var none := Operand("");
    var t := Paren("", none, "");
    assert Formed(none) && Fits(none, ")");
    assert "" + (")" + "") == ")";
    assert Formed(t) && Fits(t, "") && Tree(t) == ConstValue(0);
    assert Show(t) == "(" + "" + "" + "" + ")";
    assert "" + Show(t) + "" == "()";
    FormulaIsRead(2, "()", "", t, "");
  }

  lemma NothingIsZero()
    ensures Wcstoul("") == (0, 0) && !Numeral("")
  {
  }

  /** and `-1` as the largest number. */
  lemma NegativeWraps()
    ensures ParseForm(2, "-1") == Some(ConstValue(LIMIT - 1))
  {
    hide ParseForm;
    OneIsOne();
    assert "-1"[0..] == "-1" && "-1"[1..] == "1" && "1"[..1] == "1";
    assert Wcstoul("-1") == (LIMIT - 1, 2);
    var t := Operand("-1");
    assert Formed(t) && Fits(t, "");
    assert "" + Show(t) + "" == "-1";
    FormulaIsRead(2, "-1", "", t, "");
  }

  lemma OneIsOne()
    ensures DigitRun("1") == 1 && Decimal("1") == 1
  {
    assert "1"[1..] == "" && "1"[..0] == "" && DigitRun("") == 0;
  }
}
