/**
  The function text generated for `cudf::transform`: tokenized, parsed and evaluated,
  it is the polynomial.
 */
module GeneratedSource {
  import opened Outcomes
  import opened Decimals
  import opened ExpressionTrees
  import opened Polynomials
  import opened Sequences
  import opened SourceText

  // ------------------------------------------------------------ decimal names

  function CoefficientName(i: nat): (s: string)
    ensures s != [] && forall k :: 0 <= k < |s| ==> IsWordChar(s[k])
  {
    ['c'] + ToString(i)
  }

  /** No two coefficients share a name, and none is called `x`. */
  lemma CoefficientNamesDiffer(i: nat, j: nat)
    ensures CoefficientName(i) == CoefficientName(j) ==> i == j
    ensures CoefficientName(i) != "x" && CoefficientName(i) != "out"
  {
    ToStringValue(i);
    ToStringValue(j);
    assert CoefficientName(i)[1..] == ToString(i) && CoefficientName(j)[1..] == ToString(j);
    assert CoefficientName(i)[0] == 'c' && "x"[0] == 'x' && "out"[0] == 'o';
  }

  // ------------------------------------------------------ the generated text

  /** What `expr` holds after the round for coefficient `i`. */
  function ExpressionText(i: nat): string {
    if i == 0 then "c0" else "( " + ExpressionText(i - 1) + " ) * x +  c" + ToString(i)
  }

  function DeclarationText(typeName: string, i: nat): string {
    if i == 0 then typeName + " c0" else DeclarationText(typeName, i - 1) + (", " + typeName + " c" + ToString(i))
  }

  method GenerateText(typeName: string, order: nat) returns (expr: string, paramsDecl: string)
    requires order > 0
    ensures expr == ExpressionText(order) && paramsDecl == DeclarationText(typeName, order)
  {
    paramsDecl := typeName + " c0";
    expr := "c0";
    for i := 1 to order + 1
      invariant expr == ExpressionText(i - 1) && paramsDecl == DeclarationText(typeName, i - 1)
    {
      expr := "( " + expr + " ) * x +  c" + ToString(i);
      paramsDecl := paramsDecl + (", " + typeName + " c" + ToString(i));
    }
  }

  function RoundTokens(name: string): seq<Token> { [Symbol(')'), Symbol('*'), Word("x"), Symbol('+'), Word(name)] }

  function ExpressionTokens(i: nat): seq<Token> {
    if i == 0 then [Word(CoefficientName(0))]
        else [Symbol('(')] + ExpressionTokens(i - 1) + RoundTokens(CoefficientName(i))
  }

  lemma LexPlus(s: string)
    ensures Lex(" +  " + s, "") == [Symbol('+')] + Lex(s, "")
  {
    LexSymbol(' ', s);
    LexSymbol(' ', [' '] + s);
    LexSymbol('+', [' '] + ([' '] + s));
    LexSymbol(' ', ['+'] + ([' '] + ([' '] + s)));
    assert " +  " + s == [' '] + (['+'] + ([' '] + ([' '] + s)));
  }

  lemma LexOpen(s: string)
    ensures Lex("( " + s, "") == [Symbol('(')] + Lex(s, "")
  {
    LexSymbol(' ', s);
    LexSymbol('(', [' '] + s);
    assert "( " + s == ['('] + ([' '] + s);
  }

  lemma LexTimes(s: string)
    ensures Lex(" ) * " + s, "") == [Symbol(')'), Symbol('*')] + Lex(s, "")
  {
    LexSymbol(' ', s);
    LexSymbol('*', [' '] + s);
    LexSymbol(' ', ['*'] + ([' '] + s));
    LexSymbol(')', [' '] + (['*'] + ([' '] + s)));
    LexSymbol(' ', [')'] + ([' '] + (['*'] + ([' '] + s))));
    assert " ) * " + s == [' '] + ([')'] + ([' '] + (['*'] + ([' '] + s))));
  }

  lemma LexTail(i: nat)
    ensures Lex(" ) * x +  c" + ToString(i), "") == RoundTokens(CoefficientName(i))
  {
    var plus := " +  " + CoefficientName(i);
    LexPlus(CoefficientName(i));
    LexWord(CoefficientName(i), "");
    assert "" + CoefficientName(i) == CoefficientName(i);
    LexWord("x", "");
    assert "" + "x" == "x";
    LexConcat("x", plus, "");
    LexTimes("x" + plus);
    TailText(ToString(i));
  }

  lemma TailText(s: string)
    ensures " ) * x +  c" + s == " ) * " + ("x" + (" +  " + (['c'] + s)))
  {
    assert " ) * x +  c" == " ) * " + ("x" + (" +  " + ['c']));
  }

  lemma Regroup(a: string, b: string, c: string, d: string)
    ensures a + b + c + d == a + (b + (c + d))
  {
  }

  /** One round of text around an inner expression is one round of tokens. */
  lemma LexRound(inner: string, i: nat)
    ensures Lex("( " + inner + " ) * x +  c" + ToString(i), "")
         == [Symbol('(')] + Lex(inner, "") + RoundTokens(CoefficientName(i))
  {
    var tail := " ) * x +  c" + ToString(i);
    LexTail(i);
    LexConcat(inner, tail, "");
    LexOpen(inner + tail);
    Regroup("( ", inner, " ) * x +  c", ToString(i));
    ConcatAssociative([Symbol('(')], Lex(inner, ""), RoundTokens(CoefficientName(i)));
  }

  lemma {:induction false} LexExpression(i: nat)
    ensures Lex(ExpressionText(i), "") == ExpressionTokens(i)
  {
    if i == 0 {
      LexWord("c0", "");
      assert CoefficientName(0) == "c0" == "" + "c0";
    } else {
      LexExpression(i - 1);
      LexRound(ExpressionText(i - 1), i);
    }
  }

  function HornerTerm(i: nat): Term {
    if i == 0 then Name(CoefficientName(0))
    else Sum(Product(HornerTerm(i - 1), Name("x")), Name(CoefficientName(i)))
  }

  lemma {:induction false} ParseExpression(i: nat, rest: seq<Token>)
    requires Ends(rest)
    ensures ParseSum(ExpressionTokens(i) + rest) == Some(Parsed(HornerTerm(i), rest))
  {
    if i == 0 {
      var ts := [Word(CoefficientName(0))] + rest;
      assert ts[1..] == rest;
      assert ParseAtom(ts) == Some(Parsed(HornerTerm(0), rest));
      assert ParseProduct(ts) == Some(Parsed(HornerTerm(0), rest));
    } else {
      var name := CoefficientName(i);
      var after := RoundTokens(name) + rest;
      var ts := ExpressionTokens(i) + rest;
      assert ts == [Symbol('(')] + (ExpressionTokens(i - 1) + after);
      assert ts[1..] == ExpressionTokens(i - 1) + after;
      ParseExpression(i - 1, after);
      ParseRound(HornerTerm(i - 1), ts, after, name, rest);
    }
  }

  /** The step from one round's term to the next. */
  lemma ParseRound(inner: Term, ts: seq<Token>, after: seq<Token>, name: string, rest: seq<Token>)
    requires Ends(rest)
    requires after == RoundTokens(name) + rest
    requires ts != [] && ts[0] == Symbol('(') && ParseSum(ts[1..]) == Some(Parsed(inner, after))
    ensures ParseSum(ts) == Some(Parsed(Sum(Product(inner, Name("x")), Name(name)), rest))
  {
    var t1 := after[1..];
    assert ParseAtom(ts) == Some(Parsed(inner, t1));
    assert t1[0] == Symbol('*') && t1[1..][0] == Word("x");
    var t2 := t1[1..][1..];
    assert ParseAtom(t1[1..]) == Some(Parsed(Name("x"), t2));
    var product := Product(inner, Name("x"));
    assert t2[0] == Symbol('+') && t2[1..][0] == Word(name) && t2[1..][1..] == rest;
    assert ParseProductRest(product, t2) == Some(Parsed(product, t2));
    assert ParseProductRest(inner, t1) == Some(Parsed(product, t2));
    assert ParseAtom(t2[1..]) == Some(Parsed(Name(name), rest));
    assert ParseProductRest(Name(name), rest) == Some(Parsed(Name(name), rest));
    assert ParseProduct(t2[1..]) == Some(Parsed(Name(name), rest));
    assert ParseSumRest(Sum(product, Name(name)), rest) == Some(Parsed(Sum(product, Name(name)), rest));
  }

  /** The generated text parses to the Horner form. */
  lemma ParseGenerated(order: nat)
    ensures Parse(ExpressionText(order)) == Some(HornerTerm(order))
  {
    LexExpression(order);
    ParseExpression(order, []);
    assert ExpressionTokens(order) + [] == ExpressionTokens(order);
  }

  // ----------------------------------------------------- declared parameters

  /** The parameter list of the generated function. */
  function HeaderText(typeName: string, order: nat): string {
    typeName + "* out, " + typeName + " x, " + DeclarationText(typeName, order)
  }

  function CoefficientNames(n: nat): (names: seq<string>)
    ensures |names| == n && forall k :: 0 <= k < n ==> names[k] == CoefficientName(k)
  {
    seq(n, k requires 0 <= k < n => CoefficientName(k))
  }

  function Names(order: nat): seq<string> { ["out", "x"] + CoefficientNames(order + 1) }

  lemma HeaderRound(typeName: string, i: nat)
    requires i > 0
    ensures HeaderText(typeName, i) == HeaderText(typeName, i - 1) + (", " + typeName + " " + CoefficientName(i))
  {
    assert " c" + ToString(i) == " " + CoefficientName(i);
    assert ", " + typeName + " c" + ToString(i) == ", " + typeName + " " + CoefficientName(i);
  }

  lemma HeaderStart(typeName: string)
    ensures HeaderText(typeName, 0)
        == typeName + "* out" + (", " + typeName + " " + "x") + (", " + typeName + " " + CoefficientName(0))
  {
    HeaderParts(typeName, "* out", ", ", " x", " c0");
    assert CoefficientName(0) == "c0";
    assert "* out, " == "* out" + ", " && " x, " == " x" + ", ";
    assert ", " + typeName + " x" == ", " + typeName + " " + "x";
    assert ", " + typeName + " c0" == ", " + typeName + " " + "c0";
  }

  lemma HeaderParts(t: string, out: string, sep: string, x: string, c: string)
    ensures t + (out + sep) + t + (x + sep) + (t + c) == t + out + (sep + t + x) + (sep + t + c)
  {
  }

  lemma OutParameter(typeName: string)
    requires IsWord(typeName)
    ensures ParameterNames(Lex(typeName + "* out", "")) == ["out"]
  {
    LexWord(typeName, "");
    LexWord("out", "");
    assert "" + typeName == typeName && "" + "out" == "out";
    LexSymbol(' ', "out");
    LexSymbol('*', " out");
    assert " out" == [' '] + "out" && "* out" == ['*'] + " out";
    LexConcat(typeName, "* out", "");
    assert Lex(typeName + "* out", "") == [Word(typeName), Symbol('*'), Word("out")];
    NamesOfPointer(typeName, "out");
  }

  /** The generated header declares `out`, `x` and the coefficients in order. */
  lemma {:induction false} HeaderNames(typeName: string, order: nat)
    requires IsWord(typeName)
    ensures ParameterNames(Lex(HeaderText(typeName, order), "")) == Names(order)
  {
    if order == 0 {
      HeaderStart(typeName);
      OutParameter(typeName);
      ParameterNamesSnoc(typeName + "* out", typeName, "x");
      ParameterNamesSnoc(typeName + "* out" + (", " + typeName + " " + "x"), typeName, CoefficientName(0));
      assert Names(0) == ["out"] + ["x"] + [CoefficientName(0)];
    } else {
      HeaderNames(typeName, order - 1);
      HeaderRound(typeName, order);
      ParameterNamesSnoc(HeaderText(typeName, order - 1), typeName, CoefficientName(order));
      assert Names(order) == Names(order - 1) + [CoefficientName(order)];
    }
  }

  // ---------------------------------------------------------------- meaning

  lemma InputNamesDiffer(order: nat)
    ensures var names := Names(order)[1..]; forall i, j :: 0 <= i < j < |names| ==> names[i] != names[j]
  {
    var names := Names(order)[1..];
    forall i, j | 0 <= i < j < |names| ensures names[i] != names[j] {
      CoefficientNamesDiffer(j - 1, if i == 0 then 0 else i - 1);
    }
  }

  lemma InputLookup(x: real, cs: seq<real>, k: nat)
    requires k < |cs| + 1 && cs != []
    ensures |Names(|cs| - 1)[1..]| == |cs| + 1
    ensures Lookup(Names(|cs| - 1)[1..], [x] + cs, Names(|cs| - 1)[k + 1]) == Some(([x] + cs)[k])
  {
    InputNamesDiffer(|cs| - 1);
    LookupAt(Names(|cs| - 1)[1..], [x] + cs, k);
  }

  /** The names resolve to the row's `x` and the coefficients. */
  ghost predicate Binds(names: seq<string>, args: seq<real>, x: real, cs: seq<real>) {
    && |names| == |args|
    && Lookup(names, args, "x") == Some(x)
    && forall i :: 0 <= i < |cs| ==> Lookup(names, args, CoefficientName(i)) == Some(cs[i])
  }

  lemma NamesBind(x: real, cs: seq<real>)
    requires cs != []
    ensures Binds(Names(|cs| - 1)[1..], [x] + cs, x, cs)
  {
    forall i | 0 <= i < |cs|
      ensures Lookup(Names(|cs| - 1)[1..], [x] + cs, CoefficientName(i)) == Some(cs[i])
    {
      InputLookup(x, cs, i + 1);
    }
    InputLookup(x, cs, 0);
  }

  /** Neither `x` nor a coefficient is read as a number. */
  lemma NoNumerals(i: nat)
    ensures !IsNumeral("x") && !IsNumeral(CoefficientName(i))
  {
    assert "x"[0] == 'x' && CoefficientName(i)[0] == 'c';
  }

  lemma PrefixSum(cs: seq<real>, i: nat, x: real)
    requires 0 < i < |cs|
    ensures PowerSum(cs[..i + 1], x) == PowerSum(cs[..i], x) * x + cs[i]
  {
    Extended(cs, i - 1);
    PowerSumSnoc(cs[..i], cs[i], x);
  }

  /** The parsed term under the declared names is the polynomial of the coefficients so far. */
  lemma {:induction false} HornerTermValue(i: nat, names: seq<string>, args: seq<real>, x: real, cs: seq<real>)
    requires i < |cs| && Binds(names, args, x, cs)
    ensures Value(HornerTerm(i), names, args) == Some(PowerSum(cs[..i + 1], x))
  {
    if i == 0 {
      BoundValues(0, names, args, x, cs);
      SingleCoefficient(cs[0], x);
      assert cs[..1] == [cs[0]];
    } else {
      HornerTermValue(i - 1, names, args, x, cs);
      HornerRound(i, names, args, x, cs);
    }
  }

  lemma HornerRound(i: nat, names: seq<string>, args: seq<real>, x: real, cs: seq<real>)
    requires 0 < i < |cs| && Binds(names, args, x, cs)
    requires Value(HornerTerm(i - 1), names, args) == Some(PowerSum(cs[..i], x))
    ensures Value(HornerTerm(i), names, args) == Some(PowerSum(cs[..i + 1], x))
  {
    PrefixSum(cs, i, x);
    HornerStep(i, names, args, x, cs, PowerSum(cs[..i], x), PowerSum(cs[..i + 1], x));
  }

  lemma HornerStep(i: nat, names: seq<string>, args: seq<real>, x: real, cs: seq<real>, before: real, after: real)
    requires 0 < i < |cs| && Binds(names, args, x, cs) && after == before * x + cs[i]
    requires Value(HornerTerm(i - 1), names, args) == Some(before)
    ensures Value(HornerTerm(i), names, args) == Some(after)
  {
    BoundValues(i, names, args, x, cs);
    RoundValue(HornerTerm(i - 1), CoefficientName(i), names, args, before, x, cs[i], after);
  }

  lemma BoundValues(i: nat, names: seq<string>, args: seq<real>, x: real, cs: seq<real>)
    requires i < |cs| && Binds(names, args, x, cs)
    ensures Value(Name("x"), names, args) == Some(x) && Value(Name(CoefficientName(i)), names, args) == Some(cs[i])
  {
    NoNumerals(i);
  }

  lemma RoundValue(t: Term, name: string, names: seq<string>, args: seq<real>, v: real, x: real, c: real, r: real)
    requires |names| == |args| && r == v * x + c
    requires Value(t, names, args) == Some(v) && Value(Name("x"), names, args) == Some(x)
    requires Value(Name(name), names, args) == Some(c)
    ensures Value(Sum(Product(t, Name("x")), Name(name)), names, args) == Some(r)
  {
    CombineStep(v, x, c, r);
  }

  lemma ApplyHorner(x: Cell, cs: seq<Cell>)
    requires |cs| > 1
    ensures ApplyRow(Names(|cs| - 1)[1..], HornerTerm(|cs| - 1), [x] + cs)
         == if NoNulls(cs) then PolynomialCell(Values(cs), x) else None
  {
    if NoNulls([x] + cs) {
      ValuesOfInputs(x, cs);
      HornerOfInputs(x.value, Values(cs));
    } else if x.Some? {
      var k :| 0 <= k < |[x] + cs| && ([x] + cs)[k].None?;
      assert cs[k - 1].None?;
    }
  }

  lemma ValuesOfInputs(x: Cell, cs: seq<Cell>)
    requires NoNulls([x] + cs)
    ensures x.Some? && NoNulls(cs) && Values([x] + cs) == [x.value] + Values(cs)
  {
    var inputs := [x] + cs;
    assert inputs[0] == x;
    forall k | 0 <= k < |cs| ensures cs[k].Some? {
      assert inputs[k + 1] == cs[k];
    }
    forall k | 0 <= k < |inputs| ensures Values(inputs)[k] == ([x.value] + Values(cs))[k] {
      assert inputs[k] == if k == 0 then x else cs[k - 1];
    }
  }

  lemma HornerOfInputs(x: real, cs: seq<real>)
    requires |cs| > 1
    ensures |Names(|cs| - 1)[1..]| == |cs| + 1
    ensures Value(HornerTerm(|cs| - 1), Names(|cs| - 1)[1..], [x] + cs) == Some(PowerSum(cs, x))
  {
    NamesBind(x, cs);
    HornerTermValue(|cs| - 1, Names(|cs| - 1)[1..], [x] + cs, x, cs);
    assert cs[..|cs|] == cs;
  }

  /** The generated function computes the polynomial; a null coefficient makes everything null. */
  lemma TransformRowIsPolynomial(typeName: string, x: Cell, cs: seq<Cell>)
    requires IsWord(typeName) && |cs| > 1
    ensures TransformRow(HeaderText(typeName, |cs| - 1), ExpressionText(|cs| - 1), [x] + cs)
         == if NoNulls(cs) then PolynomialCell(Values(cs), x) else None
  {
    HeaderNames(typeName, |cs| - 1);
    ParseGenerated(|cs| - 1);
    ApplyHorner(x, cs);
  }

  /** Generates the function and applies it to every row; the one-row coefficient columns are broadcast. */
  method TransformPolynomial(typeName: string, xs: Column, constants: seq<Cell>) returns (result: Column)
    requires IsWord(typeName) && |constants| > 1
    ensures |result| == |xs|
    ensures NoNulls(constants) ==> result == PolynomialColumn(Values(constants), xs)
    ensures !NoNulls(constants) ==> forall r :: 0 <= r < |xs| ==> result[r] == None
  {
    var expr, paramsDecl := GenerateText(typeName, |constants| - 1);
    var header := typeName + "* out, " + typeName + " x, " + paramsDecl;
    assert header == HeaderText(typeName, |constants| - 1);
    result := seq(|xs|, r requires 0 <= r < |xs| => TransformRow(header, expr, [xs[r]] + constants));
    forall r | 0 <= r < |xs| { TransformRowIsPolynomial(typeName, xs[r], constants); }
  }
}
