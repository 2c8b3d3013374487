/**
  The amount that query 9 computes, and its text as a function of a row: tokenized,
  parsed and evaluated, it is that amount.
 */
module AmountText {
  import opened Outcomes
  import opened Decimals
  import opened ExpressionTrees
  import opened SourceText

  function AmountOf(discount: real, price: real, cost: real, quantity: real): real {
    price * (1.0 - discount) - cost * quantity
  }

  function AmountCell(discount: Cell, price: Cell, cost: Cell, quantity: Cell): Cell {
    if discount.Some? && price.Some? && cost.Some? && quantity.Some?
    then Some(AmountOf(discount.value, price.value, cost.value, quantity.value))
    else None
  }

  lemma CombineDifference(p: real, v: real, c: real, q: real, r: real)
    requires r == p * v - c * q
    ensures Combine(SUB, Combine(MUL, Some(p), Some(v)), Combine(MUL, Some(c), Some(q))) == Some(r)
  {
  }

  lemma StepwiseCells(d: Cell, p: Cell, c: Cell, q: Cell)
    ensures Combine(SUB, Combine(MUL, p, Combine(SUB, Some(1.0), d)), Combine(MUL, c, q)) == AmountCell(d, p, c, q)
  {
    if AmountCell(d, p, c, q).Some? {
      var v := 1.0 - d.value;
      assert Combine(SUB, Some(1.0), d) == Some(v);
      CombineDifference(p.value, v, c.value, q.value, AmountOf(d.value, p.value, c.value, q.value));
    }
  }

  // -------------------------------------------------------------------- tokens

  lemma LexWordThen(w: string, s: string)
    requires IsWord(w) && StartsApart(s)
    ensures Lex(w + s, "") == [Word(w)] + Lex(s, "")
  {
    LexConcat(w, s, "");
    LexWord(w, "");
    assert "" + w == w;
  }

  lemma LexOnly(w: string)
    requires IsWord(w)
    ensures Lex(w, "") == [Word(w)]
  {
    LexWord(w, "");
    assert "" + w == w;
  }

  /** A symbol between blanks. */
  lemma LexSpaced(c: char, s: string)
    requires !IsWordChar(c) && c != ' '
    ensures Lex([' ', c, ' '] + s, "") == [Symbol(c)] + Lex(s, "")
  {
    LexSymbol(' ', s);
    LexSymbol(c, [' '] + s);
    LexSymbol(' ', [c] + ([' '] + s));
    assert [' ', c, ' '] + s == [' '] + ([c] + ([' '] + s));
  }

  lemma LexOne(s: string)
    ensures Lex("(" + ("1" + (" - " + s)), "") == [Symbol('('), Word("1"), Symbol('-')] + Lex(s, "")
  {
    LexSpaced('-', s);
    LexWordThen("1", " - " + s);
    LexSymbol('(', "1" + (" - " + s));
  }

  // -------------------------------------------------------------- the expression

  /** `c * d` */
  function ProductText(c: string, d: string): string { c + (" * " + d) }

  /** `a * (1 - b) - c * d` */
  function AmountText(a: string, b: string, c: string, d: string): string {
    a + (" * " + ("(" + ("1" + (" - " + (b + (")" + (" - " + ProductText(c, d))))))))
  }

  function Body(): string { AmountText("extended_price", "discount", "supply_cost", "quantity") }

  function ProductTokens(c: string, d: string): seq<Token> { [Word(c), Symbol('*'), Word(d)] }

  function ComplementTokens(b: string): seq<Token> { [Symbol('('), Word("1"), Symbol('-'), Word(b), Symbol(')')] }

  function AmountTokens(a: string, b: string, c: string, d: string): seq<Token> {
    [Word(a), Symbol('*')] + (ComplementTokens(b) + ([Symbol('-')] + ProductTokens(c, d)))
  }

  lemma LexProduct(c: string, d: string)
    requires IsWord(c) && IsWord(d)
    ensures Lex(ProductText(c, d), "") == ProductTokens(c, d)
  {
    LexOnly(d);
    LexSpaced('*', d);
    LexWordThen(c, " * " + d);
  }

  lemma LexComplement(b: string, s: string)
    requires IsWord(b)
    ensures Lex("(" + ("1" + (" - " + (b + (")" + s)))), "") == ComplementTokens(b) + Lex(s, "")
  {
    LexSymbol(')', s);
    LexWordThen(b, ")" + s);
    LexOne(b + (")" + s));
  }

  lemma LexAmount(a: string, b: string, c: string, d: string)
    requires IsWord(a) && IsWord(b) && IsWord(c) && IsWord(d)
    ensures Lex(AmountText(a, b, c, d), "") == AmountTokens(a, b, c, d)
  {
    var back := " - " + ProductText(c, d);
    LexProduct(c, d);
    LexSpaced('-', ProductText(c, d));
    LexComplement(b, back);
    var middle := "(" + ("1" + (" - " + (b + (")" + back))));
    LexSpaced('*', middle);
    LexWordThen(a, " * " + middle);
    ThreeParts(a, b, c, d);
  }

  lemma ThreeParts(a: string, b: string, c: string, d: string)
    ensures [Word(a)] + ([Symbol('*')] + (ComplementTokens(b) + ([Symbol('-')] + ProductTokens(c, d))))
        == AmountTokens(a, b, c, d)
  {
  }

  function AmountTerm(a: string, b: string, c: string, d: string): Term {
    Difference(Product(Name(a), Difference(Name("1"), Name(b))), Product(Name(c), Name(d)))
  }

  predicate EndsProduct(ts: seq<Token>) { ts == [] || ts[0] != Symbol('*') }

  lemma ParseWord(w: string, rest: seq<Token>)
    requires EndsProduct(rest)
    ensures ParseAtom([Word(w)] + rest) == Some(Parsed(Name(w), rest))
    ensures ParseProduct([Word(w)] + rest) == Some(Parsed(Name(w), rest))
  {
    assert ([Word(w)] + rest)[1..] == rest;
  }

  /** `w * ...` */
  lemma ParseTimes(w: string, inner: Term, ts: seq<Token>, rest: seq<Token>)
    requires ParseAtom(ts) == Some(Parsed(inner, rest)) && EndsProduct(rest)
    ensures ParseProduct([Word(w), Symbol('*')] + ts) == Some(Parsed(Product(Name(w), inner), rest))
  {
    var all := [Word(w), Symbol('*')] + ts;
    var times := [Symbol('*')] + ts;
    assert all[1..] == times && times[1..] == ts;
    assert ParseAtom(all) == Some(Parsed(Name(w), times));
    assert ParseProductRest(Name(w), times) == ParseProductRest(Product(Name(w), inner), rest);
  }

  /** `... - ...` */
  lemma ParseMinus(left: Term, right: Term, ts: seq<Token>, rest: seq<Token>)
    requires ParseProduct(ts) == Some(Parsed(right, rest)) && Ends(rest)
    ensures ParseSumRest(left, [Symbol('-')] + ts) == Some(Parsed(Difference(left, right), rest))
  {
    assert ([Symbol('-')] + ts)[1..] == ts;
  }

  /** `(1 - b)` */
  lemma ParseComplement(b: string, rest: seq<Token>)
    ensures ParseAtom(ComplementTokens(b) + rest) == Some(Parsed(Difference(Name("1"), Name(b)), rest))
  {
    var close := [Symbol(')')] + rest;
    var minus := [Symbol('-')] + ([Word(b)] + close);
    ParseWord(b, close);
    ParseWord("1", minus);
    ParseMinus(Name("1"), Name(b), [Word(b)] + close, close);
    assert ParseSum([Word("1")] + minus) == Some(Parsed(Difference(Name("1"), Name(b)), close));
    InParentheses([Word("1")] + minus, Difference(Name("1"), Name(b)), rest);
    assert ComplementTokens(b) + rest == [Symbol('(')] + ([Word("1")] + minus);
  }

  lemma InParentheses(ts: seq<Token>, inner: Term, rest: seq<Token>)
    requires ParseSum(ts) == Some(Parsed(inner, [Symbol(')')] + rest))
    ensures ParseAtom([Symbol('(')] + ts) == Some(Parsed(inner, rest))
  {
    assert ([Symbol('(')] + ts)[1..] == ts && ([Symbol(')')] + rest)[1..] == rest;
  }

  /** The product and the difference inside it bind as written. */
  lemma ParseAmount(a: string, b: string, c: string, d: string)
    ensures ParseSum(AmountTokens(a, b, c, d)) == Some(Parsed(AmountTerm(a, b, c, d), []))
  {
    var complement := Difference(Name("1"), Name(b));
    var minus := [Symbol('-')] + ProductTokens(c, d);
    ParseWord(d, []);
    assert [Word(d)] + [] == [Word(d)] && [Word(c), Symbol('*')] + [Word(d)] == ProductTokens(c, d);
    ParseTimes(c, Name(d), [Word(d)], []);
    ParseComplement(b, minus);
    ParseTimes(a, complement, ComplementTokens(b) + minus, minus);
    ParseMinus(Product(Name(a), complement), Product(Name(c), Name(d)), ProductTokens(c, d), []);
  }

  lemma AmountParsed(a: string, b: string, c: string, d: string)
    requires IsWord(a) && IsWord(b) && IsWord(c) && IsWord(d)
    ensures Parse(AmountText(a, b, c, d)) == Some(AmountTerm(a, b, c, d))
  {
    LexAmount(a, b, c, d);
    ParseAmount(a, b, c, d);
  }

  // -------------------------------------------------------------- the parameters

  function WithParameter(header: string, typeName: string, name: string): string {
    header + (", " + typeName + " " + name)
  }

  /** `double * out, double a, double b, double c, double d` */
  function ParameterText(t: string, out: string, a: string, b: string, c: string, d: string): string {
    WithParameter(WithParameter(WithParameter(WithParameter(t + (" * " + out), t, a), t, b), t, c), t, d)
  }

  function Header(): string {
    ParameterText("double", "amount", "discount", "extended_price", "supply_cost", "quantity")
  }

  lemma OutputPointer(t: string, out: string)
    requires IsWord(t) && IsWord(out)
    ensures ParameterNames(Lex(t + (" * " + out), "")) == [out]
  {
    LexProduct(t, out);
    NamesOfPointer(t, out);
  }

  lemma ParametersRead(t: string, out: string, a: string, b: string, c: string, d: string)
    requires IsWord(t) && IsWord(out) && IsWord(a) && IsWord(b) && IsWord(c) && IsWord(d)
    ensures ParameterNames(Lex(ParameterText(t, out, a, b, c, d), "")) == [out, a, b, c, d]
  {
    var h0 := t + (" * " + out);
    var h1 := WithParameter(h0, t, a);
    var h2 := WithParameter(h1, t, b);
    var h3 := WithParameter(h2, t, c);
    OutputPointer(t, out);
    ParameterNamesSnoc(h0, t, a);
    ParameterNamesSnoc(h1, t, b);
    ParameterNamesSnoc(h2, t, c);
    ParameterNamesSnoc(h3, t, d);
  }

  // --------------------------------------------------------------------- meaning

  lemma OneIsOne()
    ensures IsNumeral("1") && ValueOf("1") == 1
  {
    assert "1"[..0] == [] && "1"[0] == '1';
    assert ValueOf("1") == 10 * ValueOf("1"[..0]) + ('1' as int - '0' as int);
  }

  lemma OneValue(names: seq<string>, args: seq<real>)
    requires |names| == |args|
    ensures Value(Name("1"), names, args) == Some(1.0)
  {
    OneIsOne();
  }

  lemma NamedValue(names: seq<string>, args: seq<real>, k: nat)
    requires |names| == |args| && k < |names| && !IsNumeral(names[k])
    requires forall i, j :: 0 <= i < j < |names| ==> names[i] != names[j]
    ensures Value(Name(names[k]), names, args) == Some(args[k])
  {
    LookupAt(names, args, k);
  }

  lemma TermValue(a: string, b: string, c: string, d: string, names: seq<string>, args: seq<real>,
                  price: real, discount: real, cost: real, quantity: real)
    requires |names| == |args|
    requires Value(Name(a), names, args) == Some(price) && Value(Name(b), names, args) == Some(discount)
    requires Value(Name(c), names, args) == Some(cost) && Value(Name(d), names, args) == Some(quantity)
    ensures Value(AmountTerm(a, b, c, d), names, args) == Some(AmountOf(discount, price, cost, quantity))
  {
    OneValue(names, args);
    var complement := Difference(Name("1"), Name(b));
    assert Value(complement, names, args) == Combine(SUB, Some(1.0), Some(discount));
    assert Value(Product(Name(a), complement), names, args)
        == Combine(MUL, Some(price), Combine(SUB, Some(1.0), Some(discount)));
    assert Value(Product(Name(c), Name(d)), names, args) == Combine(MUL, Some(cost), Some(quantity));
    StepwiseCells(Some(discount), Some(price), Some(cost), Some(quantity));
  }

  /** Under the inputs' names in the order they are passed. */
  lemma PositionalValue(names: seq<string>, args: seq<real>)
    requires |names| == |args| == 4 && forall k :: 0 <= k < 4 ==> !IsNumeral(names[k])
    requires forall i, j :: 0 <= i < j < 4 ==> names[i] != names[j]
    ensures Value(AmountTerm(names[1], names[0], names[2], names[3]), names, args)
         == Some(AmountOf(args[0], args[1], args[2], args[3]))
  {
    NamedValue(names, args, 0);
    NamedValue(names, args, 1);
    NamedValue(names, args, 2);
    NamedValue(names, args, 3);
    TermValue(names[1], names[0], names[2], names[3], names, args, args[1], args[0], args[2], args[3]);
  }

  const INPUTS := ["discount", "extended_price", "supply_cost", "quantity"]

  lemma WordsOfInputs()
    ensures IsWord("double") && IsWord("amount")
    ensures forall k :: 0 <= k < 4 ==> IsWord(INPUTS[k]) && !IsNumeral(INPUTS[k])
    ensures forall i, j :: 0 <= i < j < 4 ==> INPUTS[i] != INPUTS[j]
  {
    assert INPUTS[0][0] == 'd' && INPUTS[1][0] == 'e' && INPUTS[2][0] == 's' && INPUTS[3][0] == 'q';
  }

  lemma ApplyAmount(names: seq<string>, inputs: seq<Cell>)
    requires |names| == |inputs| == 4 && forall k :: 0 <= k < 4 ==> !IsNumeral(names[k])
    requires forall i, j :: 0 <= i < j < 4 ==> names[i] != names[j]
    ensures ApplyRow(names, AmountTerm(names[1], names[0], names[2], names[3]), inputs)
         == AmountCell(inputs[0], inputs[1], inputs[2], inputs[3])
  {
    if NoNulls(inputs) {
      PositionalValue(names, Values(inputs));
    }
  }

  lemma NamedRow(t: string, out: string, names: seq<string>, inputs: seq<Cell>)
    requires |names| == |inputs| == 4 && IsWord(t) && IsWord(out)
    requires forall k :: 0 <= k < 4 ==> IsWord(names[k]) && !IsNumeral(names[k])
    requires forall i, j :: 0 <= i < j < 4 ==> names[i] != names[j]
    ensures TransformRow(ParameterText(t, out, names[0], names[1], names[2], names[3]),
                         AmountText(names[1], names[0], names[2], names[3]), inputs)
         == AmountCell(inputs[0], inputs[1], inputs[2], inputs[3])
  {
    var header := ParameterText(t, out, names[0], names[1], names[2], names[3]);
    var body := AmountText(names[1], names[0], names[2], names[3]);
    AmountParsed(names[1], names[0], names[2], names[3]);
    ParametersRead(t, out, names[0], names[1], names[2], names[3]);
    ApplyAmount(names, inputs);
    assert [out, names[0], names[1], names[2], names[3]] == [out] + names;
    CompiledRow(out, names, AmountTerm(names[1], names[0], names[2], names[3]), header, body, inputs);
  }

  /** The compiled text computes the amount; a null input makes the row null. */
  lemma AmountRow(inputs: seq<Cell>)
    requires |inputs| == 4
    ensures TransformRow(Header(), Body(), inputs) == AmountCell(inputs[0], inputs[1], inputs[2], inputs[3])
  {
    WordsOfInputs();
    NamedRow("double", "amount", INPUTS, inputs);
  }

  lemma CompiledRow(out: string, names: seq<string>, term: Term, header: string, body: string, inputs: seq<Cell>)
    requires ParameterNames(Lex(header, "")) == [out] + names && Parse(body) == Some(term)
    ensures TransformRow(header, body, inputs) == ApplyRow(names, term, inputs)
  {
    assert ([out] + names)[1..] == names;
  }
}
