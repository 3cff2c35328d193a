/**
  The matrix DSL (internal/matrix/dsl.go): tokenizer and recursive-descent parser, proved to
  accept exactly the grammar

      or   := and ('|' and)*      and := atom ('&' atom)*
      atom := name | '+' name | '(' or ')'

  with AND binding tighter, and to undo a canonical printer.
 */
module Dsl {
  import opened MatrixSpec

  datatype Result<T> = Success(value: T) | Failure

  // ---- characters and tokens ----

  /** unicode.IsSpace, and unicode.IsLetter or IsDigit. */
  datatype Charset = Charset(space: char -> bool, alphanumeric: char -> bool) {

    predicate IsIdentChar(c: char) {
      alphanumeric(c) || c == '_' || c == '-' || c == '.'
    }

    ghost predicate Valid() {
      forall c :: IsIdentChar(c) || IsOperator(c) ==> !space(c) && !(IsIdentChar(c) && IsOperator(c))
    }

    predicate IsName(name: string) {
      name != "" && forall c <- name :: IsIdentChar(c)
    }
  }

  predicate IsOperator(c: char) {
    c == '&' || c == '|' || c == '(' || c == ')' || c == '+'
  }

  datatype Token = Ident(name: string) | AndOp | OrOp | LParen | RParen | RefTo(name: string)

  /** How a token is written. */
  function Text(t: Token): string {
    match t
    case Ident(name) => name
    case AndOp => "&"
    case OrOp => "|"
    case LParen => "("
    case RParen => ")"
    case RefTo(name) => "+" + name
  }

  predicate IsWritten(cs: Charset, t: Token) {
    match t
    case Ident(name) => cs.IsName(name)
    case RefTo(name) => cs.IsName(name)
    case _ => true
  }

  // ---- tokenize ----

  /** The end of the run of identifier characters that starts at i. */
  function RunEnd(cs: Charset, input: string, i: nat): (j: nat)
    requires i <= |input|
    ensures i <= j <= |input|
    ensures forall k :: i <= k < j ==> cs.IsIdentChar(input[k])
    ensures j < |input| ==> !cs.IsIdentChar(input[j])
    decreases |input| - i
  {
    if i < |input| && cs.IsIdentChar(input[i]) then RunEnd(cs, input, i + 1) else i
  }

  method ScanRun(cs: Charset, input: string, start: nat) returns (i: nat)
    requires start <= |input|
    ensures i == RunEnd(cs, input, start)
  {
    i := start;
    while i < |input| && cs.IsIdentChar(input[i])
      invariant start <= i <= |input| && RunEnd(cs, input, i) == RunEnd(cs, input, start)
    {
      i := i + 1;
    }
  }

  /** One token at a non-space position, and where the next one may start. */
  function TokenAt(cs: Charset, input: string, i: nat): (r: Result<(Token, nat)>)
    requires i < |input|
    ensures r.Success? ==> i < r.value.1 <= |input|
  {
    match input[i]
    case '&' => Success((AndOp, i + 1))
    case '|' => Success((OrOp, i + 1))
    case '(' => Success((LParen, i + 1))
    case ')' => Success((RParen, i + 1))
    case '+' =>
      var j := RunEnd(cs, input, i + 1);
      if j == i + 1 then Failure else Success((RefTo(input[i + 1..j]), j))
    case _ =>
      if !cs.IsIdentChar(input[i]) then Failure
      else
        var j := RunEnd(cs, input, i);
        assert j > i;
        Success((Ident(input[i..j]), j))
  }

  /** The tokens of the input from i on. */
  function Tokens(cs: Charset, input: string, i: nat): Result<seq<Token>>
    requires i <= |input|
    decreases |input| - i
  {
    if i == |input| then Success([])
    else if cs.space(input[i]) then Tokens(cs, input, i + 1)
    else
      match TokenAt(cs, input, i)
      case Failure => Failure
      case Success((t, j)) => Prepend(t, Tokens(cs, input, j))
  }

  function Prepend(t: Token, rest: Result<seq<Token>>): Result<seq<Token>> {
    match rest
    case Success(ts) => Success([t] + ts)
    case Failure => Failure
  }

  function AppendTo(done: seq<Token>, rest: Result<seq<Token>>): Result<seq<Token>> {
    match rest
    case Success(ts) => Success(done + ts)
    case Failure => Failure
  }

  lemma AppendPrepend(done: seq<Token>, t: Token, rest: Result<seq<Token>>)
    ensures AppendTo(done + [t], rest) == AppendTo(done, Prepend(t, rest))
  {
    if rest.Success? {
      assert done + [t] + rest.value == done + ([t] + rest.value);
    }
  }

  /** tokenize, without the closing EOF token. */
  method Tokenize(cs: Charset, input: string) returns (r: Result<seq<Token>>)
    ensures r == Tokens(cs, input, 0)
  {
    var tokens, i := [], 0;
    AppendNothing(tokens, Tokens(cs, input, 0));
    while i < |input|
      invariant i <= |input|
      invariant AppendTo(tokens, Tokens(cs, input, i)) == Tokens(cs, input, 0)
      decreases |input| - i
    {
      if cs.space(input[i]) {
        i := i + 1;
        continue;
      }
      var start, token := i, OrOp;
      match input[i] {
        case '&' => token, i := AndOp, i + 1;
        case '|' => token, i := OrOp, i + 1;
        case '(' => token, i := LParen, i + 1;
        case ')' => token, i := RParen, i + 1;
        case '+' =>
          i := i + 1;
          var j := ScanRun(cs, input, i);
          if j == i {
            return Failure;
          }
          token, i := RefTo(input[i..j]), j;
        case _ =>
          if !cs.IsIdentChar(input[i]) {
            return Failure;
          }
          var j := ScanRun(cs, input, i);
          token, i := Ident(input[i..j]), j;
      }
      assert TokenAt(cs, input, start) == Success((token, i));
      AppendPrepend(tokens, token, Tokens(cs, input, i));
      tokens := tokens + [token];
    }
    AppendNothing(tokens, Success([]));
    r := Success(tokens);
  }

  lemma AppendNothing(done: seq<Token>, rest: Result<seq<Token>>)
    ensures AppendTo([], rest) == rest && AppendTo(done, Success([])) == Success(done)
  {
    if rest.Success? {
      assert [] + rest.value == rest.value;
    }
    assert done + [] == done;
  }

  function Spelled(ts: seq<Token>): string {
    if ts == [] then "" else Text(ts[0]) + Spelled(ts[1..])
  }

  function WithoutSpaces(cs: Charset, input: string, i: nat): string
    requires i <= |input|
    decreases |input| - i
  {
    if i == |input| then ""
    else (if cs.space(input[i]) then "" else [input[i]]) + WithoutSpaces(cs, input, i + 1)
  }

  lemma {:induction false} RunHasNoSpaces(cs: Charset, input: string, i: nat, j: nat)
    requires cs.Valid() && i <= j <= |input|
    requires forall k :: i <= k < j ==> !cs.space(input[k])
    ensures WithoutSpaces(cs, input, i) == input[i..j] + WithoutSpaces(cs, input, j)
    decreases j - i
  {
    if i < j {
      RunHasNoSpaces(cs, input, i + 1, j);
      assert input[i..j] == [input[i]] + input[i + 1..j];
    }
  }

  /** Tokenizing drops spaces and nothing else, and every name it reads is a name. */
  lemma {:induction false} TokensSpellInput(cs: Charset, input: string, i: nat)
    requires cs.Valid() && i <= |input|
    ensures Tokens(cs, input, i).Success? ==>
              && Spelled(Tokens(cs, input, i).value) == WithoutSpaces(cs, input, i)
              && forall t <- Tokens(cs, input, i).value :: IsWritten(cs, t)
    decreases |input| - i
  {
    if i == |input| {
    } else if cs.space(input[i]) {
      TokensSpellInput(cs, input, i + 1);
    } else if TokenAt(cs, input, i).Success? {
      var (t, j) := TokenAt(cs, input, i).value;
      TokenIsItsText(cs, input, i);
      hide TokenAt, Text, IsWritten, Charset.Valid;
      TokensSpellInput(cs, input, j);
      RunHasNoSpaces(cs, input, i, j);
      var rest := Tokens(cs, input, j);
      if rest.Success? {
        assert Tokens(cs, input, i).value == [t] + rest.value;
        assert ([t] + rest.value)[1..] == rest.value;
      }
    }
  }

  lemma TokenIsItsText(cs: Charset, input: string, i: nat)
    requires cs.Valid() && i < |input| && !cs.space(input[i]) && TokenAt(cs, input, i).Success?
    ensures var (t, j) := TokenAt(cs, input, i).value;
            Text(t) == input[i..j] && IsWritten(cs, t) && forall k :: i <= k < j ==> !cs.space(input[k])
  {
  }

  datatype Span = Span(start: nat, end: nat)

  /** Where each token starts and ends. */
  ghost function Spans(cs: Charset, input: string, i: nat): seq<Span>
    requires i <= |input|
    decreases |input| - i
  {
    if i == |input| then []
    else if cs.space(input[i]) then Spans(cs, input, i + 1)
    else
      match TokenAt(cs, input, i)
      case Failure => []
      case Success((_, j)) => [Span(i, j)] + Spans(cs, input, j)
  }

  /** Token t is the text of the span, and does not stop inside a name. */
  ghost predicate IsSpan(cs: Charset, input: string, t: Token, s: Span) {
    && s.start < s.end <= |input| && Text(t) == input[s.start..s.end]
    && (s.end < |input| && cs.IsIdentChar(input[s.end - 1]) ==> !cs.IsIdentChar(input[s.end]))
  }

  ghost predicate InSpan(spans: seq<Span>, k: nat, p: nat)
    requires k < |spans|
  {
    spans[k].start <= p < spans[k].end
  }

  /** The spans are the tokens' texts, in order and apart, and leave out nothing but spaces. */
  ghost predicate AreSpans(cs: Charset, input: string, i: nat, ts: seq<Token>, spans: seq<Span>) {
    && |spans| == |ts|
    && (forall k :: 0 <= k < |ts| ==> i <= spans[k].start && IsSpan(cs, input, ts[k], spans[k]))
    && (forall k :: 0 < k < |ts| ==> spans[k - 1].end <= spans[k].start)
    && (forall p: nat :: i <= p < |input| && !cs.space(input[p]) ==>
          exists k: nat :: k < |spans| && InSpan(spans, k, p))
  }

  lemma OneMoreSpan(cs: Charset, input: string, i: nat, j: nat, t: Token, ts: seq<Token>, spans: seq<Span>)
    requires i < j <= |input| && IsSpan(cs, input, t, Span(i, j)) && AreSpans(cs, input, j, ts, spans)
    ensures AreSpans(cs, input, i, [t] + ts, [Span(i, j)] + spans)
  {
    hide IsSpan;
    var more := [Span(i, j)] + spans;
    forall p: nat | i <= p < |input| && !cs.space(input[p])
      ensures exists k: nat :: k < |more| && InSpan(more, k, p)
    {
      if p < j {
        assert InSpan(more, 0, p);
      } else {
        var k: nat :| k < |spans| && InSpan(spans, k, p);
        assert InSpan(more, k + 1, p);
      }
    }
  }

  lemma SpaceSkipped(cs: Charset, input: string, i: nat, ts: seq<Token>, spans: seq<Span>)
    requires i < |input| && cs.space(input[i]) && AreSpans(cs, input, i + 1, ts, spans)
    ensures AreSpans(cs, input, i, ts, spans)
  {
    hide IsSpan, InSpan;
  }

  lemma {:induction false} SpansAreTokens(cs: Charset, input: string, i: nat)
    requires cs.Valid() && i <= |input| && Tokens(cs, input, i).Success?
    ensures AreSpans(cs, input, i, Tokens(cs, input, i).value, Spans(cs, input, i))
    decreases |input| - i
  {
    if i == |input| {
    } else if cs.space(input[i]) {
      SpansAreTokens(cs, input, i + 1);
      SpaceSkipped(cs, input, i, Tokens(cs, input, i + 1).value, Spans(cs, input, i + 1));
    } else {
      var (t, j) := TokenAt(cs, input, i).value;
      TokenIsSpan(cs, input, i);
      hide TokenAt, IsSpan, Charset.Valid, AreSpans;
      SpansAreTokens(cs, input, j);
      OneMoreSpan(cs, input, i, j, t, Tokens(cs, input, j).value, Spans(cs, input, j));
    }
  }

  lemma TokenIsSpan(cs: Charset, input: string, i: nat)
    requires cs.Valid() && i < |input| && !cs.space(input[i]) && TokenAt(cs, input, i).Success?
    ensures var (t, j) := TokenAt(cs, input, i).value; IsSpan(cs, input, t, Span(i, j))
  {
  }

  /** Tokens take names whole: two name characters side by side are never in different tokens. */
  lemma {:induction false} NamesStayWhole(cs: Charset, input: string, p: nat)
    requires cs.Valid() && Tokens(cs, input, 0).Success?
    requires p + 1 < |input| && cs.IsIdentChar(input[p]) && cs.IsIdentChar(input[p + 1])
    ensures var spans := Spans(cs, input, 0);
            exists k: nat :: k < |spans| && InSpan(spans, k, p) && InSpan(spans, k, p + 1)
  {
    SpansAreTokens(cs, input, 0);
    WholeInSpans(cs, input, p, Tokens(cs, input, 0).value, Spans(cs, input, 0));
  }

  lemma WholeInSpans(cs: Charset, input: string, p: nat, ts: seq<Token>, spans: seq<Span>)
    requires cs.Valid() && AreSpans(cs, input, 0, ts, spans)
    requires p + 1 < |input| && cs.IsIdentChar(input[p]) && cs.IsIdentChar(input[p + 1])
    ensures exists k: nat :: k < |spans| && InSpan(spans, k, p) && InSpan(spans, k, p + 1)
  {
    assert !cs.space(input[p]);
    hide Charset.Valid;
    var k: nat :| k < |spans| && InSpan(spans, k, p);
    assert IsSpan(cs, input, ts[k], spans[k]);
  }

  /** Position i makes the input unreadable: a stray character, or a '+' without a name. */
  ghost predicate Unreadable(cs: Charset, input: string, i: nat)
    requires i < |input|
  {
    || (input[i] == '+' && (i + 1 == |input| || !cs.IsIdentChar(input[i + 1])))
    || (!cs.space(input[i]) && !IsOperator(input[i]) && !cs.IsIdentChar(input[i]))
  }

  /** Tokenizing fails exactly on an unreadable position. */
  lemma {:induction false} TokensFailExactly(cs: Charset, input: string, i: nat)
    requires cs.Valid() && i <= |input|
    ensures Tokens(cs, input, i).Failure? <==> exists k :: i <= k < |input| && Unreadable(cs, input, k)
    decreases |input| - i
  {
    if i == |input| {
    } else if cs.space(input[i]) {
      TokensFailExactly(cs, input, i + 1);
      assert !Unreadable(cs, input, i);
    } else if TokenAt(cs, input, i).Failure? {
      assert Unreadable(cs, input, i);
    } else {
      var j := TokenAt(cs, input, i).value.1;
      TokensFailExactly(cs, input, j);
      forall k | i <= k < j
        ensures !Unreadable(cs, input, k)
      {
      }
    }
  }

  // ---- the grammar: derivation trees, what they yield and what they build ----

  datatype Atom = Name(name: string) | SetRef(name: string) | Parens(inner: Expr)
  datatype Term = Term(factors: seq<Atom>)
  datatype Expr = Expr(terms: seq<Term>)

  predicate WfAtom(a: Atom) {
    a.Parens? ==> WfExpr(a.inner)
  }

  predicate WfTerm(t: Term) {
    t.factors != [] && forall a <- t.factors :: WfAtom(a)
  }

  predicate WfExpr(e: Expr) {
    e.terms != [] && forall t <- e.terms :: WfTerm(t)
  }

  function YieldAtom(a: Atom): seq<Token> {
    match a
    case Name(name) => [Ident(name)]
    case SetRef(name) => [RefTo(name)]
    case Parens(e) => [LParen] + YieldExpr(e) + [RParen]
  }

  function YieldFactors(factors: seq<Atom>): seq<Token> {
    if factors == [] then [] else [AndOp] + YieldAtom(factors[0]) + YieldFactors(factors[1..])
  }

  /** The first factor, then '&' before each further one. */
  function YieldTerm(t: Term): seq<Token> {
    if t.factors == [] then [] else YieldAtom(t.factors[0]) + YieldFactors(t.factors[1..])
  }

  function YieldTerms(terms: seq<Term>): seq<Token> {
    if terms == [] then [] else [OrOp] + YieldTerm(terms[0]) + YieldTerms(terms[1..])
  }

  function YieldExpr(e: Expr): seq<Token> {
    if e.terms == [] then [] else YieldTerm(e.terms[0]) + YieldTerms(e.terms[1..])
  }

  function BuildAtom(a: Atom): Node {
    match a
    case Name(name) => Leaf(name)
    case SetRef(name) => Ref(name)
    case Parens(e) => BuildExpr(e)
  }

  function BuildFactors(factors: seq<Atom>): (r: seq<Node>)
    ensures |r| == |factors|
  {
    if factors == [] then [] else [BuildAtom(factors[0])] + BuildFactors(factors[1..])
  }

  function BuildTerm(t: Term): Node {
    if |t.factors| == 1 then BuildAtom(t.factors[0]) else And(BuildFactors(t.factors))
  }

  function BuildTerms(terms: seq<Term>): (r: seq<Node>)
    ensures |r| == |terms|
  {
    if terms == [] then [] else [BuildTerm(terms[0])] + BuildTerms(terms[1..])
  }

  function BuildExpr(e: Expr): Node {
    if |e.terms| == 1 then BuildTerm(e.terms[0]) else Or(BuildTerms(e.terms))
  }

  // ---- the parser ----

  /** What a parse of the front of ts returns: the node and the tokens after it. */
  type Parse = Result<(Node, seq<Token>)>
  type ParseList = Result<(seq<Node>, seq<Token>)>

  function ParseAtom(ts: seq<Token>): (r: Parse)
    ensures r.Success? ==> |r.value.1| < |ts|
    decreases |ts|, 0
  {
    if ts == [] then Failure
    else
      match ts[0]
      case Ident(name) => Success((Leaf(name), ts[1..]))
      case RefTo(name) => Success((Ref(name), ts[1..]))
      case LParen =>
        var inner := ParseOr(ts[1..]);
        if inner.Failure? then Failure
        else if inner.value.1 == [] || inner.value.1[0] != RParen then Failure
        else Success((inner.value.0, inner.value.1[1..]))
      case _ => Failure
  }

  function ParseFactors(ts: seq<Token>): (r: ParseList)
    ensures r.Success? ==> |r.value.1| <= |ts|
    decreases |ts|, 1
  {
    if ts == [] || ts[0] != AndOp then Success(([], ts))
    else
      var first := ParseAtom(ts[1..]);
      if first.Failure? then Failure
      else
        var more := ParseFactors(first.value.1);
        if more.Failure? then Failure
        else Success(([first.value.0] + more.value.0, more.value.1))
  }

  function ParseAnd(ts: seq<Token>): (r: Parse)
    ensures r.Success? ==> |r.value.1| < |ts|
    decreases |ts|, 2
  {
    var first := ParseAtom(ts);
    if first.Failure? then Failure
    else
      var more := ParseFactors(first.value.1);
      if more.Failure? then Failure
      else if more.value.0 == [] then first
      else Success((And([first.value.0] + more.value.0), more.value.1))
  }

  function ParseTerms(ts: seq<Token>): (r: ParseList)
    ensures r.Success? ==> |r.value.1| <= |ts|
    decreases |ts|, 3
  {
    if ts == [] || ts[0] != OrOp then Success(([], ts))
    else
      var first := ParseAnd(ts[1..]);
      if first.Failure? then Failure
      else
        var more := ParseTerms(first.value.1);
        if more.Failure? then Failure
        else Success(([first.value.0] + more.value.0, more.value.1))
  }

  function ParseOr(ts: seq<Token>): (r: Parse)
    ensures r.Success? ==> |r.value.1| < |ts|
    decreases |ts|, 4
  {
    var first := ParseAnd(ts);
    if first.Failure? then Failure
    else
      var more := ParseTerms(first.value.1);
      if more.Failure? then Failure
      else if more.value.0 == [] then first
      else Success((Or([first.value.0] + more.value.0), more.value.1))
  }

  /** The parser object: a token list and a position that only moves forward. */
  class Parser {
    const tokens: seq<Token>
    var pos: nat

    constructor (tokens: seq<Token>)
      ensures this.tokens == tokens && pos == 0
    {
      this.tokens := tokens;
      pos := 0;
    }

    ghost predicate Valid()
      reads this
    {
      pos <= |tokens|
    }

    /** The tokens still to be read. */
    ghost function Rest(): seq<Token>
      reads this
      requires Valid()
    {
      tokens[pos..]
    }

    /** peek().typ; false at the end of the input, where peek returns EOF. */
    method At(t: Token) returns (r: bool)
      requires Valid()
      ensures r <==> Rest() != [] && Rest()[0] == t
    {
      r := pos < |tokens| && tokens[pos] == t;
    }

    /** The method outcome (ok, node) and the new position agree with a functional parse of the old rest. */
    ghost predicate Agrees(expected: Parse, ok: bool, node: Node)
      reads this
    {
      match expected
      case Failure => !ok
      case Success((n, rest)) => ok && node == n && Valid() && Rest() == rest
    }

    method ParseAtomExpr() returns (ok: bool, node: Node)
      requires Valid()
      modifies this`pos
      ensures Agrees(ParseAtom(old(Rest())), ok, node)
      decreases |tokens| - pos, 0
    {
      ok, node := false, Leaf("");
      if pos == |tokens| {
        return;
      }
      var t := tokens[pos];
      ghost var before := Rest();
      pos := pos + 1;
      assert before[1..] == Rest();
      match t {
        case Ident(name) =>
          ok, node := true, Leaf(name);
        case RefTo(name) =>
          ok, node := true, Ref(name);
        case LParen =>
          ok, node := ParseOrExpr();
          if ok {
            ghost var inner := Rest();
            ok := At(RParen);
            if ok {
              pos := pos + 1;
              assert inner[1..] == Rest();
            }
          }
        case _ =>
      }
    }

    method ParseAndExpr() returns (ok: bool, node: Node)
      requires Valid()
      modifies this`pos
      ensures Agrees(ParseAnd(old(Rest())), ok, node)
      decreases |tokens| - pos, 1
    {
      ok, node := ParseAtomExpr();
      if !ok {
        return;
      }
      var more := At(AndOp);
      if !more {
        assert ParseFactors(Rest()) == Success(([], Rest()));
        return;
      }
      ghost var tail := ParseFactors(Rest());
      var children := [node];
      while more
        invariant Valid() && pos > old(pos)
        invariant more <==> Rest() != [] && Rest()[0] == AndOp
        invariant PrependAll(children, ParseFactors(Rest())) == PrependAll([node], tail)
        invariant |children| >= 1
        decreases |tokens| - pos
      {
        ghost var before := Rest();
        pos := pos + 1;
        assert before[1..] == Rest();
        var right;
        ok, right := ParseAtomExpr();
        if !ok {
          return;
        }
        PrependOne(children, right, ParseFactors(Rest()));
        children := children + [right];
        more := At(AndOp);
      }
      node := And(children);
    }

    method ParseOrExpr() returns (ok: bool, node: Node)
      requires Valid()
      modifies this`pos
      ensures Agrees(ParseOr(old(Rest())), ok, node)
      decreases |tokens| - pos, 2
    {
      ok, node := ParseAndExpr();
      if !ok {
        return;
      }
      var more := At(OrOp);
      if !more {
        assert ParseTerms(Rest()) == Success(([], Rest()));
        return;
      }
      ghost var tail := ParseTerms(Rest());
      var children := [node];
      while more
        invariant Valid() && pos > old(pos)
        invariant more <==> Rest() != [] && Rest()[0] == OrOp
        invariant PrependAll(children, ParseTerms(Rest())) == PrependAll([node], tail)
        invariant |children| >= 1
        decreases |tokens| - pos
      {
        ghost var before := Rest();
        pos := pos + 1;
        assert before[1..] == Rest();
        var right;
        ok, right := ParseAndExpr();
        if !ok {
          return;
        }
        PrependOne(children, right, ParseTerms(Rest()));
        children := children + [right];
        more := At(OrOp);
      }
      node := Or(children);
    }
  }

  function PrependAll(done: seq<Node>, rest: ParseList): ParseList {
    match rest
    case Failure => Failure
    case Success((nodes, ts)) => Success((done + nodes, ts))
  }

  lemma PrependOne(done: seq<Node>, node: Node, rest: ParseList)
    ensures PrependAll(done + [node], rest) == PrependAll(done, PrependAll([node], rest))
  {
    if rest.Success? {
      assert done + [node] + rest.value.0 == done + ([node] + rest.value.0);
    }
  }

  // ---- the parser accepts exactly the grammar ----

  predicate StartsWith(ts: seq<Token>, t: Token) {
    ts != [] && ts[0] == t
  }

  lemma {:induction false} CompleteAtom(a: Atom, rest: seq<Token>)
    requires WfAtom(a)
    ensures ParseAtom(YieldAtom(a) + rest) == Success((BuildAtom(a), rest))
    decreases a, 0
  {
    if a.Parens? {
      var ts := YieldAtom(a) + rest;
      CompleteExpr(a.inner, [RParen] + rest);
      assert ts[1..] == YieldExpr(a.inner) + ([RParen] + rest);
    }
  }

  lemma {:induction false} CompleteFactors(factors: seq<Atom>, rest: seq<Token>)
    requires (forall a <- factors :: WfAtom(a)) && !StartsWith(rest, AndOp)
    ensures ParseFactors(YieldFactors(factors) + rest) == Success((BuildFactors(factors), rest))
    decreases factors, 0
  {
    hide ParseAtom, ParseFactors, YieldAtom, BuildAtom, WfAtom;
    if factors == [] {
      NoMoreFactors(rest);
      assert YieldFactors(factors) + rest == rest;
    } else {
      var after := YieldFactors(factors[1..]) + rest;
      CompleteFactors(factors[1..], rest);
      CompleteAtom(factors[0], after);
      SeparatedTail(AndOp, YieldAtom(factors[0]), YieldFactors(factors[1..]), rest);
      OneMoreFactor(YieldFactors(factors) + rest);
    }
  }

  lemma SeparatedTail(separator: Token, first: seq<Token>, others: seq<Token>, rest: seq<Token>)
    ensures ([separator] + first + others + rest)[1..] == first + (others + rest)
    ensures StartsWith([separator] + first + others + rest, separator)
  {
  }

  lemma NoMoreFactors(ts: seq<Token>)
    requires !StartsWith(ts, AndOp)
    ensures ParseFactors(ts) == Success(([], ts))
  {
  }

  lemma OneMoreFactor(ts: seq<Token>)
    requires StartsWith(ts, AndOp) && ParseAtom(ts[1..]).Success?
    ensures ParseFactors(ts) == PrependAll([ParseAtom(ts[1..]).value.0], ParseFactors(ParseAtom(ts[1..]).value.1))
  {
  }

  lemma {:induction false} CompleteTerm(t: Term, rest: seq<Token>)
    requires WfTerm(t) && !StartsWith(rest, AndOp)
    ensures ParseAnd(YieldTerm(t) + rest) == Success((BuildTerm(t), rest))
    decreases t, 0
  {
    hide ParseAtom, ParseFactors, YieldAtom, BuildAtom, WfAtom;
    var first, others := t.factors[0], t.factors[1..];
    var after := YieldFactors(others) + rest;
    CompleteAtom(first, after);
    CompleteFactors(others, rest);
    assert YieldTerm(t) + rest == YieldAtom(first) + after;
    assert BuildFactors(t.factors) == [BuildAtom(first)] + BuildFactors(others);
    assert others == [] ==> after == rest;
  }

  lemma {:induction false} CompleteTerms(terms: seq<Term>, rest: seq<Token>)
    requires (forall t <- terms :: WfTerm(t)) && !StartsWith(rest, AndOp) && !StartsWith(rest, OrOp)
    ensures ParseTerms(YieldTerms(terms) + rest) == Success((BuildTerms(terms), rest))
    decreases terms, 0
  {
    hide ParseAnd, YieldTerm, BuildTerm, WfTerm;
    if terms == [] {
      assert YieldTerms(terms) + rest == rest;
    } else {
      var after := YieldTerms(terms[1..]) + rest;
      YieldTermsStart(terms[1..], rest);
      CompleteTerms(terms[1..], rest);
      CompleteTerm(terms[0], after);
      SeparatedTail(OrOp, YieldTerm(terms[0]), YieldTerms(terms[1..]), rest);
    }
  }

  /** What follows a term does not continue it. */
  lemma YieldTermsStart(terms: seq<Term>, rest: seq<Token>)
    ensures !StartsWith(rest, AndOp) ==> !StartsWith(YieldTerms(terms) + rest, AndOp)
  {
    if terms == [] {
      assert YieldTerms(terms) + rest == rest;
    }
  }

  /** Every derivation is parsed, up to what cannot continue it. */
  lemma {:induction false} CompleteExpr(e: Expr, rest: seq<Token>)
    requires WfExpr(e) && !StartsWith(rest, AndOp) && !StartsWith(rest, OrOp)
    ensures ParseOr(YieldExpr(e) + rest) == Success((BuildExpr(e), rest))
    decreases e, 0
  {
    hide ParseAnd, ParseTerms, YieldTerm, BuildTerm, WfTerm;
    var first, others := e.terms[0], e.terms[1..];
    var after := YieldTerms(others) + rest;
    YieldTermsStart(others, rest);
    CompleteTerm(first, after);
    CompleteTerms(others, rest);
    assert YieldExpr(e) + rest == YieldTerm(first) + after;
    assert BuildTerms(e.terms) == [BuildTerm(first)] + BuildTerms(others);
    assert others == [] ==> after == rest;
  }

  // One unfolding of each function, so that the proofs below need no more.

  lemma ConsFactors(first: Atom, others: seq<Atom>)
    ensures BuildFactors([first] + others) == [BuildAtom(first)] + BuildFactors(others)
    ensures YieldFactors([first] + others) == [AndOp] + YieldAtom(first) + YieldFactors(others)
    ensures Term([first] + others).factors[1..] == others
    ensures YieldTerm(Term([first] + others)) == YieldAtom(first) + YieldFactors(others)
    ensures BuildTerm(Term([first] + others)) ==
              if others == [] then BuildAtom(first) else And([BuildAtom(first)] + BuildFactors(others))
  {
    assert ([first] + others)[1..] == others;
  }

  lemma ConsTerms(first: Term, others: seq<Term>)
    ensures BuildTerms([first] + others) == [BuildTerm(first)] + BuildTerms(others)
    ensures YieldTerms([first] + others) == [OrOp] + YieldTerm(first) + YieldTerms(others)
    ensures YieldExpr(Expr([first] + others)) == YieldTerm(first) + YieldTerms(others)
    ensures BuildExpr(Expr([first] + others)) ==
              if others == [] then BuildTerm(first) else Or([BuildTerm(first)] + BuildTerms(others))
  {
    assert ([first] + others)[1..] == others;
  }

  lemma Rejoined(ts: seq<Token>, separator: Token, first: seq<Token>, middle: seq<Token>, others: seq<Token>,
                 rest: seq<Token>)
    requires StartsWith(ts, separator) && ts[1..] == first + middle && middle == others + rest
    ensures ts == [separator] + first + others + rest
  {
    assert ts == [separator] + ts[1..];
  }

  lemma NoMoreTerms(ts: seq<Token>)
    requires !StartsWith(ts, OrOp)
    ensures ParseTerms(ts) == Success(([], ts))
  {
  }

  lemma OneMoreTerm(ts: seq<Token>)
    requires StartsWith(ts, OrOp) && ParseTerms(ts).Success?
    ensures ParseAnd(ts[1..]).Success? && ParseTerms(ParseAnd(ts[1..]).value.1).Success?
    ensures ParseTerms(ts) == PrependAll([ParseAnd(ts[1..]).value.0], ParseTerms(ParseAnd(ts[1..]).value.1))
  {
  }

  lemma FactorsRead(ts: seq<Token>)
    requires StartsWith(ts, AndOp) && ParseFactors(ts).Success?
    ensures ParseAtom(ts[1..]).Success? && ParseFactors(ParseAtom(ts[1..]).value.1).Success?
  {
  }

  lemma AndRead(ts: seq<Token>)
    requires ParseAnd(ts).Success?
    ensures ParseAtom(ts).Success? && ParseFactors(ParseAtom(ts).value.1).Success?
    ensures var first, more := ParseAtom(ts).value.0, ParseFactors(ParseAtom(ts).value.1).value;
            ParseAnd(ts).value == (if more.0 == [] then first else And([first] + more.0), more.1)
  {
    var more := ParseFactors(ParseAtom(ts).value.1);
    if !StartsWith(ParseAtom(ts).value.1, AndOp) {
      NoMoreFactors(ParseAtom(ts).value.1);
    }
  }

  lemma OrRead(ts: seq<Token>)
    requires ParseOr(ts).Success?
    ensures ParseAnd(ts).Success? && ParseTerms(ParseAnd(ts).value.1).Success?
    ensures var first, more := ParseAnd(ts).value.0, ParseTerms(ParseAnd(ts).value.1).value;
            ParseOr(ts).value == (if more.0 == [] then first else Or([first] + more.0), more.1)
  {
    if !StartsWith(ParseAnd(ts).value.1, OrOp) {
      NoMoreTerms(ParseAnd(ts).value.1);
    }
  }

  lemma {:induction false} SoundAtom(ts: seq<Token>) returns (a: Atom)
    requires ParseAtom(ts).Success?
    ensures WfAtom(a) && BuildAtom(a) == ParseAtom(ts).value.0
    ensures ts == YieldAtom(a) + ParseAtom(ts).value.1
    decreases |ts|, 0
  {
    hide ParseOr, BuildExpr, YieldExpr, WfExpr;
    match ts[0]
    case Ident(name) => a := Name(name);
    case RefTo(name) => a := SetRef(name);
    case LParen =>
      var e := SoundExpr(ts[1..]);
      a := Parens(e);
  }

  lemma {:induction false} SoundFactors(ts: seq<Token>) returns (factors: seq<Atom>)
    requires ParseFactors(ts).Success?
    ensures (forall a <- factors :: WfAtom(a)) && BuildFactors(factors) == ParseFactors(ts).value.0
    ensures ts == YieldFactors(factors) + ParseFactors(ts).value.1
    decreases |ts|, 1
  {
    if !StartsWith(ts, AndOp) {
      factors := [];
    } else {
      FactorsRead(ts);
      OneMoreFactor(ts);
      hide ParseAtom, ParseFactors, BuildAtom, BuildFactors, YieldAtom, YieldFactors, WfAtom;
      var first := SoundAtom(ts[1..]);
      var others := SoundFactors(ParseAtom(ts[1..]).value.1);
      factors := [first] + others;
      ConsFactors(first, others);
      var middle := ParseAtom(ts[1..]).value.1;
      Rejoined(ts, AndOp, YieldAtom(first), middle, YieldFactors(others), ParseFactors(middle).value.1);
    }
  }

  lemma {:induction false} SoundTerm(ts: seq<Token>) returns (t: Term)
    requires ParseAnd(ts).Success?
    ensures WfTerm(t) && BuildTerm(t) == ParseAnd(ts).value.0
    ensures ts == YieldTerm(t) + ParseAnd(ts).value.1
    decreases |ts|, 2
  {
    hide ParseAtom, ParseFactors, ParseAnd, BuildAtom, BuildTerm, YieldAtom, YieldFactors, YieldTerm, WfAtom;
    AndRead(ts);
    var first := SoundAtom(ts);
    var others := SoundFactors(ParseAtom(ts).value.1);
    t := Term([first] + others);
    ConsFactors(first, others);
  }

  lemma {:induction false} SoundTerms(ts: seq<Token>) returns (terms: seq<Term>)
    requires ParseTerms(ts).Success?
    ensures (forall t <- terms :: WfTerm(t)) && BuildTerms(terms) == ParseTerms(ts).value.0
    ensures ts == YieldTerms(terms) + ParseTerms(ts).value.1
    decreases |ts|, 3
  {
    if !StartsWith(ts, OrOp) {
      terms := [];
    } else {
      OneMoreTerm(ts);
      hide ParseAnd, ParseTerms, BuildTerm, BuildTerms, YieldTerm, YieldTerms, WfTerm;
      var first := SoundTerm(ts[1..]);
      var others := SoundTerms(ParseAnd(ts[1..]).value.1);
      terms := [first] + others;
      ConsTerms(first, others);
      var middle := ParseAnd(ts[1..]).value.1;
      Rejoined(ts, OrOp, YieldTerm(first), middle, YieldTerms(others), ParseTerms(middle).value.1);
    }
  }

  /** Whatever is parsed has a derivation that yields the tokens read and builds the node returned. */
  lemma {:induction false} SoundExpr(ts: seq<Token>) returns (e: Expr)
    requires ParseOr(ts).Success?
    ensures WfExpr(e) && BuildExpr(e) == ParseOr(ts).value.0
    ensures ts == YieldExpr(e) + ParseOr(ts).value.1
    decreases |ts|, 4
  {
    hide ParseAnd, ParseTerms, ParseOr, BuildTerm, BuildExpr, YieldTerm, YieldTerms, YieldExpr, WfTerm;
    OrRead(ts);
    var first := SoundTerm(ts);
    var others := SoundTerms(ParseAnd(ts).value.1);
    e := Expr([first] + others);
    ConsTerms(first, others);
  }

  // ---- parseDSL ----

  function TrimLeft(cs: Charset, input: string): (r: string)
    ensures |r| <= |input|
  {
    if input != "" && cs.space(input[0]) then TrimLeft(cs, input[1..]) else input
  }

  function TrimRight(cs: Charset, input: string): string {
    if input != "" && cs.space(input[|input| - 1]) then TrimRight(cs, input[..|input| - 1]) else input
  }

  /** e derives the input: its tokens are what the input spells. */
  predicate Derives(cs: Charset, e: Expr, input: string) {
    WfExpr(e) && Tokens(cs, input, 0) == Success(YieldExpr(e))
  }

  lemma {:induction false} RunEndShifts(cs: Charset, input: string, k: nat, i: nat)
    requires k + i <= |input|
    ensures RunEnd(cs, input[k..], i) + k == RunEnd(cs, input, k + i)
    decreases |input| - i
  {
    if k + i < |input| && cs.IsIdentChar(input[k + i]) {
      RunEndShifts(cs, input, k, i + 1);
    }
  }

  /** Tokens only depend on the characters from the position on. */
  lemma {:induction false} TokensShift(cs: Charset, input: string, k: nat, i: nat)
    requires k + i <= |input|
    ensures Tokens(cs, input[k..], i) == Tokens(cs, input, k + i)
    decreases |input| - i
  {
    var tail := input[k..];
    if i < |tail| {
      assert tail[i] == input[k + i];
      if cs.space(tail[i]) {
        TokensShift(cs, input, k, i + 1);
      } else {
        RunEndShifts(cs, input, k, i);
        RunEndShifts(cs, input, k, i + 1);
        TokenAtShifts(cs, input, k, i);
        if TokenAt(cs, tail, i).Success? {
          TokensShift(cs, input, k, TokenAt(cs, tail, i).value.1);
        }
      }
    }
  }

  lemma TokenAtShifts(cs: Charset, input: string, k: nat, i: nat)
    requires k + i < |input|
    ensures TokenAt(cs, input[k..], i).Success? <==> TokenAt(cs, input, k + i).Success?
    ensures TokenAt(cs, input[k..], i).Success? ==>
              TokenAt(cs, input, k + i).value == (TokenAt(cs, input[k..], i).value.0,
                  TokenAt(cs, input[k..], i).value.1 + k)
  {
    RunEndShifts(cs, input, k, i);
    RunEndShifts(cs, input, k, i + 1);
    var j, j' := RunEnd(cs, input[k..], i), RunEnd(cs, input[k..], i + 1);
    assert input[k..][i..j] == input[k + i..k + j];
    assert input[k..][i + 1..j'] == input[k + i + 1..k + j'];
  }

  lemma {:induction false} RunEndIgnoresSpace(cs: Charset, input: string, last: char, i: nat)
    requires cs.Valid() && cs.space(last) && i <= |input|
    ensures RunEnd(cs, input + [last], i) == RunEnd(cs, input, i)
    decreases |input| - i
  {
    if i < |input| && cs.IsIdentChar(input[i]) {
      RunEndIgnoresSpace(cs, input, last, i + 1);
    }
  }

  lemma SameSlice(a: string, b: string, i: nat, j: nat)
    requires i <= j <= |a|
    ensures (a + b)[i..j] == a[i..j]
  {
  }

  lemma TokenAtIgnoresSpace(cs: Charset, input: string, last: char, i: nat)
    requires cs.Valid() && cs.space(last) && i < |input|
    ensures TokenAt(cs, input + [last], i) == TokenAt(cs, input, i)
  {
    hide RunEnd;
    RunEndIgnoresSpace(cs, input, last, i);
    RunEndIgnoresSpace(cs, input, last, i + 1);
    SameSlice(input, [last], i, RunEnd(cs, input, i));
    SameSlice(input, [last], i + 1, RunEnd(cs, input, i + 1));
  }

  lemma {:induction false} TokensIgnoreLastSpace(cs: Charset, input: string, last: char, i: nat)
    requires cs.Valid() && cs.space(last) && i <= |input|
    ensures Tokens(cs, input + [last], i) == Tokens(cs, input, i)
    decreases |input| - i
  {
    if i < |input| {
      if cs.space(input[i]) {
        TokensIgnoreLastSpace(cs, input, last, i + 1);
      } else {
        TokenAtIgnoresSpace(cs, input, last, i);
        hide TokenAt;
        if TokenAt(cs, input, i).Success? {
          TokensIgnoreLastSpace(cs, input, last, TokenAt(cs, input, i).value.1);
        }
      }
    }
  }

  lemma {:induction false} TrimLeftKeepsTokens(cs: Charset, input: string)
    ensures Tokens(cs, TrimLeft(cs, input), 0) == Tokens(cs, input, 0)
  {
    if input != "" && cs.space(input[0]) {
      TokensShift(cs, input, 1, 0);
      TrimLeftKeepsTokens(cs, input[1..]);
    }
  }

  lemma {:induction false} TrimRightKeepsTokens(cs: Charset, input: string)
    requires cs.Valid()
    ensures Tokens(cs, TrimRight(cs, input), 0) == Tokens(cs, input, 0)
  {
    if input != "" && cs.space(input[|input| - 1]) {
      var front, last := input[..|input| - 1], input[|input| - 1];
      assert input == front + [last];
      TokensIgnoreLastSpace(cs, front, last, 0);
      TrimRightKeepsTokens(cs, front);
    }
  }

  /** What parseDSL returns; `ParsedExactly` says which inputs and nodes that is. */
  function Parsed(cs: Charset, input: string): Result<Node> {
    match Tokens(cs, input, 0)
    case Failure => Failure
    case Success(ts) =>
      match ParseOr(ts)
      case Failure => Failure
      case Success((n, rest)) => if rest == [] then Success(n) else Failure
  }

  /** parseDSL */
  method ParseDsl(cs: Charset, input: string) returns (r: Result<Node>)
    requires cs.Valid()
    ensures r == Parsed(cs, input)
  {
    var trimmed := TrimRight(cs, TrimLeft(cs, input));
    TrimLeftKeepsTokens(cs, input);
    TrimRightKeepsTokens(cs, TrimLeft(cs, input));
    if trimmed == "" {
      return Failure;
    }
    hide ParseOr, Tokens;
    var tokens := Tokenize(cs, trimmed);
    if tokens.Failure? {
      return Failure;
    }
    var p := new Parser(tokens.value);
    assert p.Rest() == tokens.value;
    var ok, root := p.ParseOrExpr();
    if !ok || p.pos < |tokens.value| {
      return Failure;
    }
    r := Success(root);
  }

  /** An input parses to a node exactly when some derivation spells the input and builds the node. */
  lemma ParsedExactly(cs: Charset, input: string, n: Node)
    ensures Parsed(cs, input) == Success(n) <==> exists e :: Derives(cs, e, input) && BuildExpr(e) == n
  {
    hide ParseOr, Tokens, BuildExpr, YieldExpr;
    if Tokens(cs, input, 0).Success? {
      ParseIsExact(Tokens(cs, input, 0).value);
    }
  }

  lemma ParseIsExact(ts: seq<Token>)
    ensures forall e :: WfExpr(e) && YieldExpr(e) == ts ==> ParseOr(ts) == Success((BuildExpr(e), []))
    ensures ParseOr(ts).Success? && ParseOr(ts).value.1 == [] ==>
              exists e :: WfExpr(e) && YieldExpr(e) == ts && BuildExpr(e) == ParseOr(ts).value.0
  {
    forall e | WfExpr(e) && YieldExpr(e) == ts
      ensures ParseOr(ts) == Success((BuildExpr(e), []))
    {
      CompleteExpr(e, []);
      assert YieldExpr(e) + [] == YieldExpr(e);
    }
    if ParseOr(ts).Success? && ParseOr(ts).value.1 == [] {
      var e := SoundExpr(ts);
      assert YieldExpr(e) == ts;
    }
  }

  /** No two derivations of the same input build different nodes. */
  lemma GrammarIsUnambiguous(cs: Charset, input: string, e: Expr, f: Expr)
    requires Derives(cs, e, input) && Derives(cs, f, input)
    ensures BuildExpr(e) == BuildExpr(f)
  {
    ParseIsExact(YieldExpr(e));
  }

  // ---- printing and parsing back ----

  /** Trees the parser can return: valid names, and at least two children under AND and OR. */
  predicate Canonical(cs: Charset, n: Node) {
    match n
    case Leaf(name) => cs.IsName(name)
    case Ref(name) => cs.IsName(name)
    case And(children) => |children| >= 2 && forall c <- children :: Canonical(cs, c)
    case Or(children) => |children| >= 2 && forall c <- children :: Canonical(cs, c)
  }

  /** As an operand of AND: AND and OR are parenthesised. */
  function PrintAtom(n: Node): Atom
    decreases n, 0
  {
    match n
    case Leaf(name) => Name(name)
    case Ref(name) => SetRef(name)
    case And(children) => Parens(Expr([Term(PrintAtoms(children))]))
    case Or(children) => Parens(Expr(PrintTerms(children)))
  }

  function PrintAtoms(children: seq<Node>): (r: seq<Atom>)
    ensures |r| == |children|
    decreases children, 0
  {
    if children == [] then [] else [PrintAtom(children[0])] + PrintAtoms(children[1..])
  }

  /** As an operand of OR: only OR is parenthesised. */
  function PrintTerm(n: Node): Term
    decreases n, 1
  {
    if n.And? then Term(PrintAtoms(n.children)) else Term([PrintAtom(n)])
  }

  function PrintTerms(children: seq<Node>): (r: seq<Term>)
    ensures |r| == |children|
    decreases children, 1
  {
    if children == [] then [] else [PrintTerm(children[0])] + PrintTerms(children[1..])
  }

  function PrintExpr(n: Node): Expr {
    if n.Or? then Expr(PrintTerms(n.children)) else Expr([PrintTerm(n)])
  }

  predicate AllWritten(cs: Charset, ts: seq<Token>) {
    forall t <- ts :: IsWritten(cs, t)
  }

  lemma {:induction false} PrintAtomBuilds(cs: Charset, n: Node)
    requires Canonical(cs, n)
    ensures WfAtom(PrintAtom(n)) && BuildAtom(PrintAtom(n)) == n
    ensures AllWritten(cs, YieldAtom(PrintAtom(n)))
    decreases n, 0
  {
    match n
    case Leaf(_) =>
    case Ref(_) =>
    case And(children) =>
      PrintAtomsBuild(cs, children);
      var t := Term(PrintAtoms(children));
      FactorsWritten(cs, t.factors);
      assert WfTerm(t) && BuildTerm(t) == n;
      assert YieldExpr(Expr([t])) == YieldTerm(t) + YieldTerms([t][1..]) == YieldTerm(t);
      assert BuildExpr(Expr([t])) == BuildTerm(t);
    case Or(children) =>
      PrintTermsBuild(cs, children);
      TermsWritten(cs, PrintTerms(children));
  }

  lemma {:induction false} PrintAtomsBuild(cs: Charset, children: seq<Node>)
    requires forall c <- children :: Canonical(cs, c)
    ensures (forall a <- PrintAtoms(children) :: WfAtom(a) && AllWritten(cs, YieldAtom(a)))
    ensures BuildFactors(PrintAtoms(children)) == children
    decreases children, 0
  {
    if children != [] {
      PrintAtomBuilds(cs, children[0]);
      PrintAtomsBuild(cs, children[1..]);
    }
  }

  lemma {:induction false} PrintTermBuilds(cs: Charset, n: Node)
    requires Canonical(cs, n)
    ensures WfTerm(PrintTerm(n)) && BuildTerm(PrintTerm(n)) == n
    ensures AllWritten(cs, YieldTerm(PrintTerm(n)))
    decreases n, 1
  {
    if n.And? {
      PrintAtomsBuild(cs, n.children);
      FactorsWritten(cs, PrintAtoms(n.children));
    } else {
      PrintAtomBuilds(cs, n);
      FactorsWritten(cs, [PrintAtom(n)]);
    }
  }

  lemma {:induction false} PrintTermsBuild(cs: Charset, children: seq<Node>)
    requires forall c <- children :: Canonical(cs, c)
    ensures (forall t <- PrintTerms(children) :: WfTerm(t) && AllWritten(cs, YieldTerm(t)))
    ensures BuildTerms(PrintTerms(children)) == children
    decreases children, 1
  {
    if children != [] {
      PrintTermBuilds(cs, children[0]);
      PrintTermsBuild(cs, children[1..]);
    }
  }

  lemma {:induction false} FactorsWritten(cs: Charset, factors: seq<Atom>)
    requires forall a <- factors :: AllWritten(cs, YieldAtom(a))
    ensures AllWritten(cs, YieldFactors(factors)) && AllWritten(cs, YieldTerm(Term(factors)))
  {
    if factors != [] {
      FactorsWritten(cs, factors[1..]);
    }
  }

  lemma {:induction false} TermsWritten(cs: Charset, terms: seq<Term>)
    requires forall t <- terms :: AllWritten(cs, YieldTerm(t))
    ensures AllWritten(cs, YieldTerms(terms)) && AllWritten(cs, YieldExpr(Expr(terms)))
  {
    if terms != [] {
      TermsWritten(cs, terms[1..]);
    }
  }

  /** The printed text: every token followed by a separating space. */
  function Render(ts: seq<Token>, space: char): string {
    if ts == [] then "" else Text(ts[0]) + [space] + Render(ts[1..], space)
  }

  function PrintDsl(n: Node, space: char): string {
    Render(YieldExpr(PrintExpr(n)), space)
  }

  lemma {:induction false} RunEndAt(cs: Charset, input: string, i: nat, j: nat)
    requires i <= j < |input| && !cs.IsIdentChar(input[j])
    requires forall k :: i <= k < j ==> cs.IsIdentChar(input[k])
    ensures RunEnd(cs, input, i) == j
    decreases j - i
  {
    if i < j {
      RunEndAt(cs, input, i + 1, j);
    }
  }

  lemma TokenAtText(cs: Charset, t: Token, space: char, rest: string)
    requires cs.Valid() && cs.space(space) && IsWritten(cs, t)
    ensures TokenAt(cs, Text(t) + [space] + rest, 0) == Success((t, |Text(t)|))
    ensures !cs.space((Text(t) + [space] + rest)[0])
  {
    var input := Text(t) + [space] + rest;
    match t
    case Ident(name) =>
      RunEndAt(cs, input, 0, |name|);
      assert input[0..|name|] == name;
    case RefTo(name) =>
      RunEndAt(cs, input, 1, |name| + 1);
      assert input[1..|name| + 1] == name;
    case _ =>
  }

  lemma TokensStep(cs: Charset, input: string, i: nat)
    requires i < |input|
    ensures cs.space(input[i]) ==> Tokens(cs, input, i) == Tokens(cs, input, i + 1)
    ensures !cs.space(input[i]) && TokenAt(cs, input, i).Success? ==>
              Tokens(cs, input, i) == Prepend(TokenAt(cs, input, i).value.0,
                  Tokens(cs, input, TokenAt(cs, input, i).value.1))
  {
  }

  lemma TokensCons(cs: Charset, t: Token, space: char, rest: string)
    requires cs.Valid() && cs.space(space) && IsWritten(cs, t)
    ensures Tokens(cs, Text(t) + [space] + rest, 0) == Prepend(t, Tokens(cs, rest, 0))
  {
    hide TokenAt, Tokens, IsWritten, Charset.Valid;
    TokenAtText(cs, t, space, rest);
    hide Text;
    var input, k := Text(t) + [space] + rest, |Text(t)|;
    assert input[k] == space && input[k + 1..] == rest;
    TokensStep(cs, input, 0);
    TokensStep(cs, input, k);
    TokensShift(cs, input, k + 1, 0);
  }

  lemma NoTokens(cs: Charset)
    ensures Tokens(cs, "", 0) == Success([])
  {
  }

  /** Written tokens, spaced out, tokenize back to themselves. */
  lemma {:induction false} RenderTokenizes(cs: Charset, ts: seq<Token>, space: char)
    requires cs.Valid() && cs.space(space) && AllWritten(cs, ts)
    ensures Tokens(cs, Render(ts, space), 0) == Success(ts)
  {
    hide Tokens, Text, IsWritten, Charset.Valid;
    if ts == [] {
      NoTokens(cs);
    } else {
      TokensCons(cs, ts[0], space, Render(ts[1..], space));
      RenderTokenizes(cs, ts[1..], space);
      assert ts == [ts[0]] + ts[1..];
    }
  }

  /** A printed canonical tree has a derivation, which builds it. */
  lemma PrintParsesBack(cs: Charset, n: Node, space: char)
    requires cs.Valid() && cs.space(space) && Canonical(cs, n)
    ensures Derives(cs, PrintExpr(n), PrintDsl(n, space)) && BuildExpr(PrintExpr(n)) == n
  {
    var e := PrintExpr(n);
    if n.Or? {
      PrintTermsBuild(cs, n.children);
      TermsWritten(cs, PrintTerms(n.children));
    } else {
      PrintTermBuilds(cs, n);
      TermsWritten(cs, [PrintTerm(n)]);
    }
    RenderTokenizes(cs, YieldExpr(e), space);
  }

  /** parseDSL undoes the printer. */
  lemma RoundTrip(cs: Charset, n: Node, space: char)
    requires cs.Valid() && cs.space(space) && Canonical(cs, n)
    ensures Parsed(cs, PrintDsl(n, space)) == Success(n)
  {
    hide Parsed, PrintDsl, PrintExpr;
    PrintParsesBack(cs, n, space);
    ParsedExactly(cs, PrintDsl(n, space), n);
  }

  /** Whatever the parser returns is canonical, so printing it parses back. */
  lemma ParsedIsCanonical(cs: Charset, input: string)
    requires cs.Valid() && Parsed(cs, input).Success?
    ensures Canonical(cs, Parsed(cs, input).value)
  {
    hide Parsed, Tokens, Canonical;
    var n := Parsed(cs, input).value;
    ParsedExactly(cs, input, n);
    var e :| Derives(cs, e, input) && BuildExpr(e) == n;
    TokensSpellInput(cs, input, 0);
    BuiltExprIsCanonical(cs, e);
  }

  lemma {:induction false} BuiltAtomIsCanonical(cs: Charset, a: Atom)
    requires WfAtom(a) && AllWritten(cs, YieldAtom(a))
    ensures Canonical(cs, BuildAtom(a))
    decreases a, 0
  {
    match a
    case Name(name) => assert IsWritten(cs, YieldAtom(a)[0]);
    case SetRef(name) => assert IsWritten(cs, YieldAtom(a)[0]);
    case Parens(e) =>
      assert forall t <- YieldExpr(e) :: t in YieldAtom(a);
      BuiltExprIsCanonical(cs, e);
  }

  lemma {:induction false} BuiltFactorsAreCanonical(cs: Charset, factors: seq<Atom>)
    requires (forall a <- factors :: WfAtom(a)) && AllWritten(cs, YieldFactors(factors))
    ensures forall n <- BuildFactors(factors) :: Canonical(cs, n)
    decreases factors, 0
  {
    if factors != [] {
      assert forall t <- YieldAtom(factors[0]) :: t in YieldFactors(factors);
      assert forall t <- YieldFactors(factors[1..]) :: t in YieldFactors(factors);
      BuiltAtomIsCanonical(cs, factors[0]);
      BuiltFactorsAreCanonical(cs, factors[1..]);
    }
  }

  lemma {:induction false} BuiltTermIsCanonical(cs: Charset, t: Term)
    requires WfTerm(t) && AllWritten(cs, YieldTerm(t))
    ensures Canonical(cs, BuildTerm(t))
    decreases t, 0
  {
    BuiltAtomIsCanonical(cs, t.factors[0]);
    BuiltFactorsAreCanonical(cs, t.factors[1..]);
  }

  lemma {:induction false} BuiltTermsAreCanonical(cs: Charset, terms: seq<Term>)
    requires (forall t <- terms :: WfTerm(t)) && AllWritten(cs, YieldTerms(terms))
    ensures forall n <- BuildTerms(terms) :: Canonical(cs, n)
    decreases terms, 0
  {
    if terms != [] {
      assert forall t <- YieldTerm(terms[0]) :: t in YieldTerms(terms);
      assert forall t <- YieldTerms(terms[1..]) :: t in YieldTerms(terms);
      BuiltTermIsCanonical(cs, terms[0]);
      BuiltTermsAreCanonical(cs, terms[1..]);
    }
  }

  lemma {:induction false} BuiltExprIsCanonical(cs: Charset, e: Expr)
    requires WfExpr(e) && AllWritten(cs, YieldExpr(e))
    ensures Canonical(cs, BuildExpr(e))
    decreases e, 0
  {
    BuiltTermIsCanonical(cs, e.terms[0]);
    BuiltTermsAreCanonical(cs, e.terms[1..]);
  }
}
