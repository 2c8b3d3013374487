/**
  Function texts handed to `cudf::transform`: a parameter list and an expression are
  tokenized, parsed with the usual precedences, and evaluated on rows.
 */
module SourceText {
  import opened Outcomes
  import opened Decimals
  import opened ExpressionTrees
  import opened Sequences

  // ----------------------------------------------------------------- tokens

  datatype Token = Word(text: string) | Symbol(c: char)

  predicate IsWordChar(c: char) {
    'a' <= c <= 'z' || 'A' <= c <= 'Z' || '0' <= c <= '9' || c == '_'
  }

  function Flush(word: string): seq<Token> { if word == [] then [] else [Word(word)] }

  /** Longest words; spaces separate and vanish. */
  function Lex(s: string, word: string): seq<Token>
    decreases |s|
  {
    if s == [] then Flush(word)
    else if IsWordChar(s[0]) then Lex(s[1..], word + [s[0]])
    else Flush(word) + (if s[0] == ' ' then [] else [Symbol(s[0])]) + Lex(s[1..], "")
  }

  predicate StartsApart(s: string) { s == [] || !IsWordChar(s[0]) }

  /** Text may be tokenized in parts when no word crosses the cut. */
  lemma {:induction false} LexConcat(a: string, b: string, word: string)
    requires StartsApart(b)
    ensures Lex(a + b, word) == Lex(a, word) + Lex(b, "")
    decreases |a|
  {
    if a == [] {
      assert a + b == b;
    } else {
      assert (a + b)[1..] == a[1..] + b;
      if IsWordChar(a[0]) {
        LexConcat(a[1..], b, word + [a[0]]);
      } else {
        LexConcat(a[1..], b, "");
        AssociateThree(Flush(word), if a[0] == ' ' then [] else [Symbol(a[0])], Lex(a[1..], ""), Lex(b, ""));
      }
    }
  }

  lemma AssociateThree<T>(a: seq<T>, b: seq<T>, c: seq<T>, d: seq<T>)
    ensures a + b + (c + d) == a + b + c + d
  {
  }

  /** A word is one token. */
  lemma {:induction false} LexWord(w: string, word: string)
    requires forall k :: 0 <= k < |w| ==> IsWordChar(w[k])
    ensures Lex(w, word) == Flush(word + w)
    decreases |w|
  {
    if w == [] {
      assert word + w == word;
    } else {
      LexWord(w[1..], word + [w[0]]);
      assert word + [w[0]] + w[1..] == word + w;
    }
  }

  lemma LexSymbol(c: char, s: string)
    requires !IsWordChar(c)
    ensures Lex([c] + s, "") == (if c == ' ' then [] else [Symbol(c)]) + Lex(s, "")
  {
    assert ([c] + s)[1..] == s;
  }

  // ------------------------------------------------------------ expressions

  datatype Term =
    | Name(text: string)
    | Sum(left: Term, right: Term)
    | Difference(left: Term, right: Term)
    | Product(left: Term, right: Term)

  datatype Parsed = Parsed(term: Term, rest: seq<Token>)

  /** sum := product (('+' | '-') product)* */
  function ParseSum(ts: seq<Token>): (r: Option<Parsed>)
    ensures r.Some? ==> |r.value.rest| < |ts|
    decreases |ts|, 3
  {
    match ParseProduct(ts)
    case None => None
    case Some(first) => ParseSumRest(first.term, first.rest)
  }

  function ParseSumRest(left: Term, ts: seq<Token>): (r: Option<Parsed>)
    ensures r.Some? ==> |r.value.rest| <= |ts|
    decreases |ts|, 2
  {
    if ts != [] && ts[0] == Symbol('+') then
      match ParseProduct(ts[1..])
      case None => None
      case Some(next) => ParseSumRest(Sum(left, next.term), next.rest)
    else if ts != [] && ts[0] == Symbol('-') then
      match ParseProduct(ts[1..])
      case None => None
      case Some(next) => ParseSumRest(Difference(left, next.term), next.rest)
    else Some(Parsed(left, ts))
  }

  /** product := atom ('*' atom)* */
  function ParseProduct(ts: seq<Token>): (r: Option<Parsed>)
    ensures r.Some? ==> |r.value.rest| < |ts|
    decreases |ts|, 2
  {
    match ParseAtom(ts)
    case None => None
    case Some(first) => ParseProductRest(first.term, first.rest)
  }

  function ParseProductRest(left: Term, ts: seq<Token>): (r: Option<Parsed>)
    ensures r.Some? ==> |r.value.rest| <= |ts|
    decreases |ts|, 1
  {
    if ts != [] && ts[0] == Symbol('*') then
      match ParseAtom(ts[1..])
      case None => None
      case Some(next) => ParseProductRest(Product(left, next.term), next.rest)
    else Some(Parsed(left, ts))
  }

  /** atom := word | '(' sum ')' */
  function ParseAtom(ts: seq<Token>): (r: Option<Parsed>)
    ensures r.Some? ==> |r.value.rest| < |ts|
    decreases |ts|, 1
  {
    if ts == [] then None
    else if ts[0].Word? then Some(Parsed(Name(ts[0].text), ts[1..]))
    else if ts[0] == Symbol('(') then
      match ParseSum(ts[1..])
      case None => None
      case Some(inner) =>
        if inner.rest != [] && inner.rest[0] == Symbol(')') then Some(Parsed(inner.term, inner.rest[1..])) else None
    else None
  }

  /** The whole text must be one expression. */
  function Parse(text: string): Option<Term> {
    match ParseSum(Lex(text, ""))
    case None => None
    case Some(p) => if p.rest == [] then Some(p.term) else None
  }

  /** Followed by nothing that continues an expression. */
  predicate Ends(ts: seq<Token>) { ts == [] || (ts[0] != Symbol('*') && ts[0] != Symbol('+') && ts[0] != Symbol('-')) }

  // ----------------------------------------------------- declared parameters

  predicate IsWord(s: string) { s != [] && forall k :: 0 <= k < |s| ==> IsWordChar(s[k]) }

  /** The declared names: the last word of every comma-separated part. */
  function ParameterNames(ts: seq<Token>): seq<string> {
    if ts == [] then []
    else if ts[0].Word? && (|ts| == 1 || ts[1] == Symbol(',')) then [ts[0].text] + ParameterNames(ts[1..])
    else ParameterNames(ts[1..])
  }

  lemma {:induction false} ParameterNamesConcat(a: seq<Token>, b: seq<Token>)
    ensures ParameterNames(a + ([Symbol(',')] + b)) == ParameterNames(a) + ParameterNames(b)
  {
    var rest := [Symbol(',')] + b;
    if a == [] {
      assert a + rest == rest && rest[1..] == b;
      assert ParameterNames(a) + ParameterNames(b) == ParameterNames(b);
    } else {
      ParameterNamesConcat(a[1..], b);
      assert (a + rest)[1..] == a[1..] + rest;
      assert |a| > 1 ==> (a + rest)[1] == a[1];
      assert |a| == 1 ==> (a + rest)[1] == Symbol(',');
      if a[0].Word? && (|a| == 1 || a[1] == Symbol(',')) {
        assert ParameterNames(a + rest) == [a[0].text] + ParameterNames((a + rest)[1..]);
        ConcatAssociative([a[0].text], ParameterNames(a[1..]), ParameterNames(b));
        assert ParameterNames(a) == [a[0].text] + ParameterNames(a[1..]);
      } else {
        assert ParameterNames(a + rest) == ParameterNames((a + rest)[1..]);
      }
    }
  }

  /** `, type name` adds one more name. */
  lemma ParameterNamesSnoc(a: string, typeName: string, name: string)
    requires IsWord(typeName) && IsWord(name)
    ensures ParameterNames(Lex(a + (", " + typeName + " " + name), "")) == ParameterNames(Lex(a, "")) + [name]
  {
    var part := typeName + " " + name;
    LexPart(typeName, name);
    LexSymbol(' ', part);
    LexSymbol(',', [' '] + part);
    assert ", " + typeName + " " + name == [','] + ([' '] + part);
    assert Lex([' '] + part, "") == Lex(part, "");
    LexConcat(a, [','] + ([' '] + part), "");
    ParameterNamesConcat(Lex(a, ""), Lex(part, ""));
  }

  /** `type name` is two words, the second the declared name. */
  lemma LexPart(typeName: string, name: string)
    requires IsWord(typeName) && IsWord(name)
    ensures Lex(typeName + " " + name, "") == [Word(typeName), Word(name)]
    ensures ParameterNames(Lex(typeName + " " + name, "")) == [name]
  {
    LexWord(typeName, "");
    LexWord(name, "");
    assert "" + typeName == typeName && "" + name == name;
    LexSymbol(' ', name);
    assert " " + name == [' '] + name && typeName + " " + name == typeName + (" " + name);
    LexConcat(typeName, " " + name, "");
    NamesOfTwo(typeName, name);
  }

  lemma NamesOfOne(a: string)
    ensures ParameterNames([Word(a)]) == [a]
  {
    assert [Word(a)][1..] == [];
    assert [a] + ParameterNames([]) == [a];
  }

  lemma NamesOfTwo(a: string, b: string)
    ensures ParameterNames([Word(a), Word(b)]) == [b]
  {
    assert [Word(a), Word(b)][1..] == [Word(b)];
    NamesOfOne(b);
  }

  lemma NamesOfPointer(a: string, b: string)
    ensures ParameterNames([Word(a), Symbol('*'), Word(b)]) == [b]
  {
    assert [Word(a), Symbol('*'), Word(b)][1..] == [Symbol('*'), Word(b)];
    assert [Symbol('*'), Word(b)][1..] == [Word(b)];
    NamesOfOne(b);
  }

  // ---------------------------------------------------------------- meaning

  /** The value bound to the first parameter called `name`; an unknown name does not compile. */
  function Lookup(names: seq<string>, args: seq<real>, name: string): Option<real>
    requires |names| == |args|
  {
    if names == [] then None else if names[0] == name then Some(args[0]) else Lookup(names[1..], args[1..], name)
  }

  /** A word of digits is a literal. */
  predicate IsNumeral(word: string) { word != [] && forall k :: 0 <= k < |word| ==> '0' <= word[k] <= '9' }

  function Value(t: Term, names: seq<string>, args: seq<real>): Option<real>
    requires |names| == |args|
  {
    match t
    case Name(n) => if IsNumeral(n) then Some(ValueOf(n) as real) else Lookup(names, args, n)
    case Sum(l, r) => Combine(ADD, Value(l, names, args), Value(r, names, args))
    case Difference(l, r) => Combine(SUB, Value(l, names, args), Value(r, names, args))
    case Product(l, r) => Combine(MUL, Value(l, names, args), Value(r, names, args))
  }

  lemma {:induction false} LookupAt(names: seq<string>, args: seq<real>, k: nat)
    requires |names| == |args| && k < |names|
    requires forall i, j :: 0 <= i < j < |names| ==> names[i] != names[j]
    ensures Lookup(names, args, names[k]) == Some(args[k])
  {
    if k > 0 {
      LookupAt(names[1..], args[1..], k - 1);
    }
  }

  predicate NoNulls(cells: seq<Cell>) { forall k :: 0 <= k < |cells| ==> cells[k].Some? }

  function Values(cells: seq<Cell>): (vs: seq<real>)
    requires NoNulls(cells)
    ensures |vs| == |cells| && forall k :: 0 <= k < |cells| ==> vs[k] == cells[k].value
  {
    seq(|cells|, k requires 0 <= k < |cells| => cells[k].value)
  }

  /** A parsed body on one row: null if any input is null (`null_aware::NO`), else its value. */
  function ApplyRow(names: seq<string>, term: Term, inputs: seq<Cell>): Cell {
    if NoNulls(inputs) && |names| == |inputs| then Value(term, names, Values(inputs)) else None
  }

  /** Compiles the text and runs it on one row; the first parameter is the output. */
  function TransformRow(header: string, body: string, inputs: seq<Cell>): Cell {
    var names := ParameterNames(Lex(header, ""));
    var term := Parse(body);
    if names != [] && term.Some? then ApplyRow(names[1..], term.value, inputs) else None
  }
}
