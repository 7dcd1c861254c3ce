/** The `when` expression front end of apps/server/src/keybindings.ts: the tokenizer, the
    depth-bounded recursive-descent parser over one shared cursor, and the printer. */
module WhenExpressions {
  import opened Wrappers
  import Text

  const MAX_WHEN_EXPRESSION_DEPTH: nat := 64

  datatype Token = Identifier(value: string) | Not | And | Or | LParen | RParen

  datatype Node =
    | Name(name: string)
    | Negation(node: Node)
    | Conjunction(left: Node, right: Node)
    | Disjunction(left: Node, right: Node)

  // ---------- Tokenizer ----------

  predicate IsIdentifierStart(c: char) {
    'A' <= c <= 'Z' || 'a' <= c <= 'z' || c == '_'
  }

  predicate IsIdentifierPart(c: char) {
    IsIdentifierStart(c) || '0' <= c <= '9' || c == '.' || c == '-'
  }

  predicate IsIdentifier(s: string) {
    && |s| > 0
    && IsIdentifierStart(s[0])
    && forall k :: 0 < k < |s| ==> IsIdentifierPart(s[k])
  }

  /** The end of the longest run of identifier characters that starts at `i`. */
  function IdentifierEnd(s: string, i: nat): (j: nat)
    requires i <= |s|
    ensures i <= j <= |s|
    ensures forall k :: i <= k < j ==> IsIdentifierPart(s[k])
    ensures j < |s| ==> !IsIdentifierPart(s[j])
    decreases |s| - i
  {
    if i < |s| && IsIdentifierPart(s[i]) then IdentifierEnd(s, i + 1) else i
  }

  /** What stands at one position: white space, nothing legal, or a token and where it ends. */
  datatype Scan = Blank | Illegal | Lexeme(token: Token, next: nat)

  function ScanAt(s: string, i: nat): (r: Scan)
    requires i < |s|
    ensures r.Lexeme? ==> i < r.next <= |s|
  {
    if Text.IsSpace(s[i]) then Blank
    else if Text.OccursAt(s, "&&", i) then Lexeme(And, i + 2)
    else if Text.OccursAt(s, "||", i) then Lexeme(Or, i + 2)
    else if s[i] == '!' then Lexeme(Not, i + 1)
    else if s[i] == '(' then Lexeme(LParen, i + 1)
    else if s[i] == ')' then Lexeme(RParen, i + 1)
    else if IsIdentifierStart(s[i]) then
      var j := IdentifierEnd(s, i + 1);
      Lexeme(Identifier(s[i..j]), j)
    else Illegal
  }

  function Prepend(tokens: seq<Token>, rest: Option<seq<Token>>): Option<seq<Token>> {
    if rest.None? then None else Some(tokens + rest.value)
  }

  /** What the tokenizer makes of `s` from position `i` on. */
  function Lex(s: string, i: nat): Option<seq<Token>>
    requires i <= |s|
    decreases |s| - i
  {
    if i == |s| then Some([])
    else
      match ScanAt(s, i)
      case Blank => Lex(s, i + 1)
      case Illegal => None
      case Lexeme(token, next) => Prepend([token], Lex(s, next))
  }

  method TokenizeWhenExpression(expression: string) returns (result: Option<seq<Token>>)
    ensures result == Lex(expression, 0)
  {
    var tokens: seq<Token> := [];
    var index := 0;
    ReadsNothing(expression, 0);
    while index < |expression|
      invariant index <= |expression|
      invariant Reads(expression, 0, tokens, index)
    {
      ghost var before, start := tokens, index;
      var current := expression[index];
      if Text.IsSpace(current) {
        index := index + 1;
        continue;
      }
      if Text.OccursAt(expression, "&&", index) {
        tokens := tokens + [And];
        index := index + 2;
      } else if Text.OccursAt(expression, "||", index) {
        tokens := tokens + [Or];
        index := index + 2;
      } else if current == '!' {
        tokens := tokens + [Not];
        index := index + 1;
      } else if current == '(' {
        tokens := tokens + [LParen];
        index := index + 1;
      } else if current == ')' {
        tokens := tokens + [RParen];
        index := index + 1;
      } else if IsIdentifierStart(current) {
        var end := IdentifierEnd(expression, index + 1);
        tokens := tokens + [Identifier(expression[index..end])];
        index := end;
      } else {
        return None;
      }
      ReadsThen(expression, 0, before, start, [ScanAt(expression, start).token], index);
    }
    assert tokens + [] == tokens;
    return Some(tokens);
  }

  /** From `i` the tokenizer reads `tokens`, and then goes on at `j`. */
  ghost predicate Reads(s: string, i: nat, tokens: seq<Token>, j: nat) {
    i <= j <= |s| && Lex(s, i) == Prepend(tokens, Lex(s, j))
  }

  lemma ReadsNothing(s: string, i: nat)
    requires i <= |s|
    ensures Reads(s, i, [], i)
  {
    if Lex(s, i).Some? {
      assert [] + Lex(s, i).value == Lex(s, i).value;
    }
  }

  lemma ReadsThen(s: string, i: nat, a: seq<Token>, j: nat, b: seq<Token>, k: nat)
    requires Reads(s, i, a, j) && Reads(s, j, b, k)
    ensures Reads(s, i, a + b, k)
  {
    if Lex(s, k).Some? {
      assert a + (b + Lex(s, k).value) == a + b + Lex(s, k).value;
    }
  }

  /** The source text of a token. */
  function Spelling(t: Token): string {
    match t
    case Identifier(value) => value
    case Not => "!"
    case And => "&&"
    case Or => "||"
    case LParen => "("
    case RParen => ")"
  }

  function SpellAll(tokens: seq<Token>): string {
    if tokens == [] then "" else Spelling(tokens[0]) + SpellAll(tokens[1..])
  }

  function WithoutSpaces(s: string): string {
    if s == "" then ""
    else if Text.IsSpace(s[0]) then WithoutSpaces(s[1..])
    else [s[0]] + WithoutSpaces(s[1..])
  }

  lemma {:induction false} WithoutSpacesSplit(s: string, k: nat)
    requires k <= |s| && forall x :: 0 <= x < k ==> !Text.IsSpace(s[x])
    ensures WithoutSpaces(s) == s[..k] + WithoutSpaces(s[k..])
    decreases k
  {
    if k == 0 {
      assert s[0..] == s;
    } else {
      WithoutSpacesSplit(s[1..], k - 1);
      assert s[1..][k - 1..] == s[k..];
      assert [s[0]] + s[1..][..k - 1] == s[..k];
    }
  }

  /** Tokenizing loses and invents nothing but white space, and every identifier it yields is one. */
  lemma {:induction false} LexKeepsText(s: string, i: nat)
    requires i <= |s| && Lex(s, i).Some?
    ensures SpellAll(Lex(s, i).value) == WithoutSpaces(s[i..])
    ensures forall t :: t in Lex(s, i).value && t.Identifier? ==> IsIdentifier(t.value)
    decreases |s| - i
  {
    hide WithoutSpaces, SpellAll, IsIdentifier;
    if i == |s| {
      assert s[i..] == "";
      NoText();
    } else {
      match ScanAt(s, i) {
        case Blank =>
          LexKeepsText(s, i + 1);
          SpaceIsDropped(s, i);
        case Lexeme(token, next) =>
          LexKeepsText(s, next);
          LexemeIsText(s, i);
          SpelledThenRest(s, i, next, token, Lex(s, next).value);
      }
    }
  }

  lemma SpaceIsDropped(s: string, i: nat)
    requires i < |s| && Text.IsSpace(s[i])
    ensures WithoutSpaces(s[i..]) == WithoutSpaces(s[i + 1..])
  {
    assert s[i..][1..] == s[i + 1..];
  }

  lemma NoText()
    ensures SpellAll([]) == WithoutSpaces("") == ""
  {
  }

  lemma SpelledThenRest(s: string, i: nat, next: nat, token: Token, rest: seq<Token>)
    requires i <= next <= |s| && s[i..next] == Spelling(token)
    requires forall k :: i <= k < next ==> !Text.IsSpace(s[k])
    requires SpellAll(rest) == WithoutSpaces(s[next..])
    ensures SpellAll([token] + rest) == WithoutSpaces(s[i..])
  {
    assert ([token] + rest)[1..] == rest;
    assert s[i..][next - i..] == s[next..];
    assert s[i..][..next - i] == s[i..next];
    WithoutSpacesSplit(s[i..], next - i);
  }

  lemma LexemeIsText(s: string, i: nat)
    requires i < |s| && ScanAt(s, i).Lexeme?
    ensures var r := ScanAt(s, i);
            && s[i..r.next] == Spelling(r.token)
            && (forall k :: i <= k < r.next ==> !Text.IsSpace(s[k]))
            && (r.token.Identifier? ==> IsIdentifier(r.token.value))
  {
    var r := ScanAt(s, i);
    if r.token.Identifier? {
      NameIsText(s, i);
    } else if r.token == And || r.token == Or {
      assert s[i] == s[i..i + 2][0] && s[i + 1] == s[i..i + 2][1];
    } else {
      assert s[i..i + 1] == [s[i]];
    }
  }

  lemma NameIsText(s: string, i: nat)
    requires i < |s| && ScanAt(s, i).Lexeme? && ScanAt(s, i).token.Identifier?
    ensures var r := ScanAt(s, i);
            && s[i..r.next] == r.token.value && IsIdentifier(r.token.value)
            && (forall k :: i <= k < r.next ==> !Text.IsSpace(s[k]))
  {
    var j := IdentifierEnd(s, i + 1);
    var name := s[i..j];
    assert name[0] == s[i];
    assert forall k :: 0 < k < |name| ==> name[k] == s[i + k] && IsIdentifierPart(s[i + k]);
    assert ScanAt(s, i) == Lexeme(Identifier(name), j);
    hide IdentifierEnd, ScanAt;
    assert IsIdentifier(name);
    assert forall k :: i <= k < j ==> IsIdentifierPart(s[k]) || IsIdentifierStart(s[k]);
  }

  lemma BlankIsSpace(s: string, i: nat)
    requires i < |s| && ScanAt(s, i) == Blank
    ensures Text.IsSpace(s[i])
  {
  }

  predicate IsWhenChar(c: char) {
    Text.IsSpace(c) || IsIdentifierPart(c) || c in "&|!()"
  }

  /** Only white space and the characters of tokens can be tokenized. */
  lemma {:induction false} LexedChars(s: string, i: nat)
    requires i <= |s| && Lex(s, i).Some?
    ensures forall k :: i <= k < |s| ==> IsWhenChar(s[k])
    decreases |s| - i
  {
    hide ScanAt;
    if i == |s| {
    } else {
      match ScanAt(s, i)
      case Blank =>
        BlankIsSpace(s, i);
        LexedChars(s, i + 1);
      case Lexeme(token, next) =>
        LexemeIsText(s, i);
        LexedChars(s, next);
        forall k | i <= k < next
          ensures IsWhenChar(s[k])
        {
          assert s[k] == s[i..next][k - i];
        }
    }
  }

  /** A text with a NUL is not tokenized. */
  lemma LexedHasNoNul(s: string)
    requires Lex(s, 0).Some?
    ensures 0 as char !in s
  {
    hide Lex;
    LexedChars(s, 0);
    assert !IsWhenChar(0 as char);
  }

  // ---------- Parser ----------

  /** The outcome of one parsing function: no node, or a node and the cursor after it. */
  datatype Parsed = Rejected | Accepted(node: Node, next: nat)

  predicate At(tokens: seq<Token>, i: nat, t: Token) {
    i < |tokens| && tokens[i] == t
  }

  function Primary(tokens: seq<Token>, i: nat, depth: nat): (r: Parsed)
    requires i <= |tokens|
    ensures r.Accepted? ==> i < r.next <= |tokens|
    decreases |tokens| - i, 0
  {
    if depth > MAX_WHEN_EXPRESSION_DEPTH || i == |tokens| then Rejected
    else if tokens[i].Identifier? then Accepted(Name(tokens[i].value), i + 1)
    else if tokens[i] == LParen then
      var inner := Disjuncts(tokens, i + 1, depth + 1);
      if inner.Accepted? && At(tokens, inner.next, RParen) then Accepted(inner.node, inner.next + 1)
      else Rejected
    else Rejected
  }

  function Unary(tokens: seq<Token>, i: nat, depth: nat, nots: nat): (r: Parsed)
    requires i <= |tokens|
    ensures r.Accepted? ==> i < r.next <= |tokens|
    decreases |tokens| - i, 1
  {
    if At(tokens, i, Not) then
      if nots + 1 > MAX_WHEN_EXPRESSION_DEPTH then Rejected
      else
        var operand := Unary(tokens, i + 1, depth, nots + 1);
        if operand.Rejected? then Rejected else Accepted(Negation(operand.node), operand.next)
    else Primary(tokens, i, depth)
  }

  function ConjunctTail(tokens: seq<Token>, i: nat, left: Node, depth: nat): (r: Parsed)
    requires i <= |tokens|
    ensures r.Accepted? ==> i <= r.next <= |tokens|
    decreases |tokens| - i, 2
  {
    if At(tokens, i, And) then
      var right := Unary(tokens, i + 1, depth, 0);
      if right.Rejected? then Rejected
      else ConjunctTail(tokens, right.next, Conjunction(left, right.node), depth)
    else Accepted(left, i)
  }

  function Conjuncts(tokens: seq<Token>, i: nat, depth: nat): (r: Parsed)
    requires i <= |tokens|
    ensures r.Accepted? ==> i < r.next <= |tokens|
    decreases |tokens| - i, 3
  {
    var left := Unary(tokens, i, depth, 0);
    if left.Rejected? then Rejected else ConjunctTail(tokens, left.next, left.node, depth)
  }

  function DisjunctTail(tokens: seq<Token>, i: nat, left: Node, depth: nat): (r: Parsed)
    requires i <= |tokens|
    ensures r.Accepted? ==> i <= r.next <= |tokens|
    decreases |tokens| - i, 4
  {
    if At(tokens, i, Or) then
      var right := Conjuncts(tokens, i + 1, depth);
      if right.Rejected? then Rejected
      else DisjunctTail(tokens, right.next, Disjunction(left, right.node), depth)
    else Accepted(left, i)
  }

  function Disjuncts(tokens: seq<Token>, i: nat, depth: nat): (r: Parsed)
    requires i <= |tokens|
    ensures r.Accepted? ==> i < r.next <= |tokens|
    decreases |tokens| - i, 5
  {
    var left := Conjuncts(tokens, i, depth);
    if left.Rejected? then Rejected else DisjunctTail(tokens, left.next, left.node, depth)
  }

  /** The AST of an expression, or None where the source answers null. */
  function ParseWhen(expression: string): Option<Node> {
    var tokens := Lex(expression, 0);
    if tokens.None? || tokens.value == [] then None
    else
      var parsed := Disjuncts(tokens.value, 0, 0);
      if parsed.Rejected? || parsed.next != |tokens.value| then None else Some(parsed.node)
  }

  function Negate(count: nat, p: Parsed): Parsed
    decreases count
  {
    if count == 0 || p.Rejected? then p else Negate(count - 1, Accepted(Negation(p.node), p.next))
  }

  lemma {:induction false} NegateInside(count: nat, p: Parsed)
    requires p.Accepted?
    ensures Negate(count, p).Accepted? && Negate(count, p).next == p.next
    ensures Negate(count + 1, p) == Accepted(Negation(Negate(count, p).node), p.next)
    decreases count
  {
    if count == 0 {
    } else {
      NegateInside(count - 1, Accepted(Negation(p.node), p.next));
    }
  }

  /** The parser itself: four mutually recursive procedures that advance one shared `index`. */
  class WhenParser {
    const tokens: seq<Token>
    var index: nat

    constructor (tokens: seq<Token>)
      ensures this.tokens == tokens && index == 0
    {
      this.tokens := tokens;
      index := 0;
    }

    /** A null result leaves the cursor anywhere; a node leaves it right after the node. */
    predicate Agrees(expected: Parsed, node: Option<Node>)
      reads this
    {
      && index <= |tokens|
      && if expected.Rejected? then node.None? else node == Some(expected.node) && index == expected.next
    }

    method ParsePrimary(depth: nat) returns (node: Option<Node>)
      requires index <= |tokens|
      modifies this`index
      ensures Agrees(Primary(tokens, old(index), depth), node)
      decreases |tokens| - index, 0
    {
      if depth > MAX_WHEN_EXPRESSION_DEPTH || index == |tokens| {
        return None;
      }
      var token := tokens[index];
      if token.Identifier? {
        index := index + 1;
        return Some(Name(token.value));
      }
      if token == LParen {
        index := index + 1;
        var inner := ParseOr(depth + 1);
        if inner.None? || index == |tokens| || tokens[index] != RParen {
          return None;
        }
        index := index + 1;
        return inner;
      }
      return None;
    }

    method ParseUnary(depth: nat) returns (node: Option<Node>)
      requires index <= |tokens|
      modifies this`index
      ensures Agrees(Unary(tokens, old(index), depth, 0), node)
      decreases |tokens| - index, 1
    {
      var notCount := 0;
      while index < |tokens| && tokens[index] == Not
        invariant old(index) <= index <= |tokens|
        invariant notCount <= MAX_WHEN_EXPRESSION_DEPTH
        invariant Unary(tokens, old(index), depth, 0) == Negate(notCount, Unary(tokens, index, depth, notCount))
      {
        ghost var operand := Unary(tokens, index + 1, depth, notCount + 1);
        if operand.Accepted? {
          NegateInside(notCount, operand);
        }
        index := index + 1;
        notCount := notCount + 1;
        if notCount > MAX_WHEN_EXPRESSION_DEPTH {
          return None;
        }
      }
      node := ParsePrimary(depth);
      if node.None? {
        return;
      }
      while notCount > 0
        invariant node.Some? && index <= |tokens|
        invariant Unary(tokens, old(index), depth, 0) == Negate(notCount, Accepted(node.value, index))
      {
        node := Some(Negation(node.value));
        notCount := notCount - 1;
      }
    }

    method ParseAnd(depth: nat) returns (node: Option<Node>)
      requires index <= |tokens|
      modifies this`index
      ensures Agrees(Conjuncts(tokens, old(index), depth), node)
      decreases |tokens| - index, 3
    {
      node := ParseUnary(depth);
      if node.None? {
        return;
      }
      while index < |tokens| && tokens[index] == And
        invariant old(index) < index <= |tokens| && node.Some?
        invariant Conjuncts(tokens, old(index), depth) == ConjunctTail(tokens, index, node.value, depth)
      {
        index := index + 1;
        var right := ParseUnary(depth);
        if right.None? {
          return None;
        }
        node := Some(Conjunction(node.value, right.value));
      }
    }

    method ParseOr(depth: nat) returns (node: Option<Node>)
      requires index <= |tokens|
      modifies this`index
      ensures Agrees(Disjuncts(tokens, old(index), depth), node)
      decreases |tokens| - index, 5
    {
      node := ParseAnd(depth);
      if node.None? {
        return;
      }
      while index < |tokens| && tokens[index] == Or
        invariant old(index) < index <= |tokens| && node.Some?
        invariant Disjuncts(tokens, old(index), depth) == DisjunctTail(tokens, index, node.value, depth)
      {
        index := index + 1;
        var right := ParseAnd(depth);
        if right.None? {
          return None;
        }
        node := Some(Disjunction(node.value, right.value));
      }
    }
  }

  method ParseKeybindingWhenExpression(expression: string) returns (ast: Option<Node>)
    ensures ast == ParseWhen(expression)
  {
    var tokens := TokenizeWhenExpression(expression);
    if tokens.None? || tokens.value == [] {
      return None;
    }
    var parser := new WhenParser(tokens.value);
    ast := parser.ParseOr(0);
    if ast.None? || parser.index != |tokens.value| {
      return None;
    }
  }

  // ---------- The grammar, stated without a cursor ----------

  /** tokens[i..j] is a primary expression for `n` inside `d` parentheses. */
  ghost predicate IsPrimary(tokens: seq<Token>, i: nat, j: nat, n: Node, d: nat)
    requires i <= j <= |tokens|
    decreases j - i, 0
  {
    && d <= MAX_WHEN_EXPRESSION_DEPTH
    && (|| (j == i + 1 && tokens[i].Identifier? && n == Name(tokens[i].value))
        || (j >= i + 2 && tokens[i] == LParen && tokens[j - 1] == RParen && IsOr(tokens, i + 1, j - 1, n, d + 1)))
  }

  /** ... a primary after at most MAX_WHEN_EXPRESSION_DEPTH - nots exclamation marks. */
  ghost predicate IsUnary(tokens: seq<Token>, i: nat, j: nat, n: Node, d: nat, nots: nat)
    requires i <= j <= |tokens|
    decreases j - i, 1
  {
    || IsPrimary(tokens, i, j, n, d)
    || (&& i < j && tokens[i] == Not && nots < MAX_WHEN_EXPRESSION_DEPTH
        && n.Negation? && IsUnary(tokens, i + 1, j, n.node, d, nots + 1))
  }

  /** ... unaries joined by `&&`, grouped to the left. */
  ghost predicate IsAnd(tokens: seq<Token>, i: nat, j: nat, n: Node, d: nat)
    requires i <= j <= |tokens|
    decreases j - i, 2
  {
    || IsUnary(tokens, i, j, n, d, 0)
    || (n.Conjunction? &&
        exists k :: i <= k < j && tokens[k] == And
                    && IsAnd(tokens, i, k, n.left, d) && IsUnary(tokens, k + 1, j, n.right, d, 0))
  }

  /** ... conjunctions joined by `||`, grouped to the left. */
  ghost predicate IsOr(tokens: seq<Token>, i: nat, j: nat, n: Node, d: nat)
    requires i <= j <= |tokens|
    decreases j - i, 3
  {
    || IsAnd(tokens, i, j, n, d)
    || (n.Disjunction? &&
        exists k :: i <= k < j && tokens[k] == Or
                    && IsOr(tokens, i, k, n.left, d) && IsAnd(tokens, k + 1, j, n.right, d))
  }

  lemma {:induction false} PrimarySound(tokens: seq<Token>, i: nat, d: nat)
    requires i <= |tokens|
    ensures var r := Primary(tokens, i, d); r.Accepted? ==> IsPrimary(tokens, i, r.next, r.node, d)
    decreases |tokens| - i, 0
  {
    if i < |tokens| && tokens[i] == LParen {
      DisjunctsSound(tokens, i + 1, d + 1);
    }
  }

  lemma {:induction false} UnarySound(tokens: seq<Token>, i: nat, d: nat, nots: nat)
    requires i <= |tokens|
    ensures var r := Unary(tokens, i, d, nots); r.Accepted? ==> IsUnary(tokens, i, r.next, r.node, d, nots)
    decreases |tokens| - i, 1
  {
    if At(tokens, i, Not) {
      UnarySound(tokens, i + 1, d, nots + 1);
    } else {
      PrimarySound(tokens, i, d);
    }
  }

  lemma {:induction false} ConjunctTailSound(tokens: seq<Token>, start: nat, i: nat, left: Node, d: nat)
    requires start <= i <= |tokens| && IsAnd(tokens, start, i, left, d)
    ensures var r := ConjunctTail(tokens, i, left, d); r.Accepted? ==> IsAnd(tokens, start, r.next, r.node, d)
    decreases |tokens| - i, 2
  {
    if !At(tokens, i, And) {
    } else {
      UnarySound(tokens, i + 1, d, 0);
      var right := Unary(tokens, i + 1, d, 0);
      if right.Accepted? {
        ConjunctTailSound(tokens, start, right.next, Conjunction(left, right.node), d);
      }
    }
  }

  lemma {:induction false} ConjunctsSound(tokens: seq<Token>, i: nat, d: nat)
    requires i <= |tokens|
    ensures var r := Conjuncts(tokens, i, d); r.Accepted? ==> IsAnd(tokens, i, r.next, r.node, d)
    decreases |tokens| - i, 3
  {
    UnarySound(tokens, i, d, 0);
    var left := Unary(tokens, i, d, 0);
    if left.Accepted? {
      ConjunctTailSound(tokens, i, left.next, left.node, d);
    }
  }

  lemma {:induction false} DisjunctTailSound(tokens: seq<Token>, start: nat, i: nat, left: Node, d: nat)
    requires start <= i <= |tokens| && IsOr(tokens, start, i, left, d)
    ensures var r := DisjunctTail(tokens, i, left, d); r.Accepted? ==> IsOr(tokens, start, r.next, r.node, d)
    decreases |tokens| - i, 4
  {
    if !At(tokens, i, Or) {
    } else {
      ConjunctsSound(tokens, i + 1, d);
      var right := Conjuncts(tokens, i + 1, d);
      if right.Accepted? {
        DisjunctTailSound(tokens, start, right.next, Disjunction(left, right.node), d);
      }
    }
  }

  lemma {:induction false} DisjunctsSound(tokens: seq<Token>, i: nat, d: nat)
    requires i <= |tokens|
    ensures var r := Disjuncts(tokens, i, d); r.Accepted? ==> IsOr(tokens, i, r.next, r.node, d)
    decreases |tokens| - i, 5
  {
    ConjunctsSound(tokens, i, d);
    var left := Conjuncts(tokens, i, d);
    if left.Accepted? {
      DisjunctTailSound(tokens, i, left.next, left.node, d);
    }
  }

  lemma {:induction false} PrimaryComplete(tokens: seq<Token>, i: nat, j: nat, n: Node, d: nat)
    requires i <= j <= |tokens| && IsPrimary(tokens, i, j, n, d)
    ensures Primary(tokens, i, d) == Accepted(n, j)
    decreases j - i, 0
  {
    if tokens[i] == LParen {
      DisjunctsComplete(tokens, i + 1, j - 1, n, d + 1);
    }
  }

  lemma {:induction false} UnaryComplete(tokens: seq<Token>, i: nat, j: nat, n: Node, d: nat, nots: nat)
    requires i <= j <= |tokens| && IsUnary(tokens, i, j, n, d, nots)
    ensures Unary(tokens, i, d, nots) == Accepted(n, j)
    decreases j - i, 1
  {
    if IsPrimary(tokens, i, j, n, d) {
      PrimaryComplete(tokens, i, j, n, d);
    } else {
      UnaryComplete(tokens, i + 1, j, n.node, d, nots + 1);
    }
  }

  /** A conjunction read up to `j` is where the parser's loop stands at `j`, whatever follows. */
  lemma {:induction false} ConjunctsComplete(tokens: seq<Token>, i: nat, j: nat, n: Node, d: nat)
    requires i <= j <= |tokens| && IsAnd(tokens, i, j, n, d)
    ensures Conjuncts(tokens, i, d) == ConjunctTail(tokens, j, n, d)
    decreases j - i, 2
  {
    if IsUnary(tokens, i, j, n, d, 0) {
      UnaryComplete(tokens, i, j, n, d, 0);
    } else {
      var k :| i <= k < j && tokens[k] == And
        && IsAnd(tokens, i, k, n.left, d) && IsUnary(tokens, k + 1, j, n.right, d, 0);
      ConjunctsComplete(tokens, i, k, n.left, d);
      UnaryComplete(tokens, k + 1, j, n.right, d, 0);
    }
  }

  lemma {:induction false} DisjunctsReach(tokens: seq<Token>, i: nat, j: nat, n: Node, d: nat)
    requires i <= j <= |tokens| && IsOr(tokens, i, j, n, d) && !At(tokens, j, And)
    ensures Disjuncts(tokens, i, d) == DisjunctTail(tokens, j, n, d)
    decreases j - i, 3
  {
    if IsAnd(tokens, i, j, n, d) {
      ConjunctsComplete(tokens, i, j, n, d);
    } else {
      var k :| i <= k < j && tokens[k] == Or
        && IsOr(tokens, i, k, n.left, d) && IsAnd(tokens, k + 1, j, n.right, d);
      DisjunctsReach(tokens, i, k, n.left, d);
      ConjunctsComplete(tokens, k + 1, j, n.right, d);
    }
  }

  lemma {:induction false} DisjunctsComplete(tokens: seq<Token>, i: nat, j: nat, n: Node, d: nat)
    requires i <= j <= |tokens| && IsOr(tokens, i, j, n, d) && !At(tokens, j, And) && !At(tokens, j, Or)
    ensures Disjuncts(tokens, i, d) == Accepted(n, j)
    decreases j - i, 4
  {
    DisjunctsReach(tokens, i, j, n, d);
  }

  /** The parser accepts exactly the grammar's sentences, and gives the tree the grammar gives. */
  lemma ParserMatchesGrammar(expression: string, n: Node)
    ensures ParseWhen(expression) == Some(n) <==>
            Lex(expression, 0).Some? && IsOr(Lex(expression, 0).value, 0, |Lex(expression, 0).value|, n, 0)
  {
    var tokens := Lex(expression, 0);
    if tokens.Some? {
      DisjunctsSound(tokens.value, 0, 0);
      if IsOr(tokens.value, 0, |tokens.value|, n, 0) {
        DisjunctsComplete(tokens.value, 0, |tokens.value|, n, 0);
      }
    }
  }

  /** No token sequence has two trees: `!` binds before `&&`, `&&` before `||`, both to the left. */
  lemma GrammarUnambiguous(tokens: seq<Token>, n: Node, m: Node)
    requires IsOr(tokens, 0, |tokens|, n, 0) && IsOr(tokens, 0, |tokens|, m, 0)
    ensures n == m
  {
    DisjunctsComplete(tokens, 0, |tokens|, n, 0);
    DisjunctsComplete(tokens, 0, |tokens|, m, 0);
  }

  // ---------- Printer and round trip ----------

  function EncodeWhenAst(n: Node): string {
    match n
    case Name(name) => name
    case Negation(node) => "!(" + EncodeWhenAst(node) + ")"
    case Conjunction(left, right) => "(" + EncodeWhenAst(left) + " && " + EncodeWhenAst(right) + ")"
    case Disjunction(left, right) => "(" + EncodeWhenAst(left) + " || " + EncodeWhenAst(right) + ")"
  }

  predicate WellFormed(n: Node) {
    match n
    case Name(name) => IsIdentifier(name)
    case Negation(node) => WellFormed(node)
    case Conjunction(left, right) => WellFormed(left) && WellFormed(right)
    case Disjunction(left, right) => WellFormed(left) && WellFormed(right)
  }

  /** How deeply the printed form of `n` nests parentheses. */
  function PrintedDepth(n: Node): nat {
    match n
    case Name(_) => 0
    case Negation(node) => 1 + PrintedDepth(node)
    case Conjunction(left, right) => 1 + Max(PrintedDepth(left), PrintedDepth(right))
    case Disjunction(left, right) => 1 + Max(PrintedDepth(left), PrintedDepth(right))
  }

  function Max(a: nat, b: nat): nat { if a < b then b else a }

  function TokensOf(n: Node): seq<Token> {
    match n
    case Name(name) => [Identifier(name)]
    case Negation(node) => [Not, LParen] + TokensOf(node) + [RParen]
    case Conjunction(left, right) => [LParen] + TokensOf(left) + [And] + TokensOf(right) + [RParen]
    case Disjunction(left, right) => [LParen] + TokensOf(left) + [Or] + TokensOf(right) + [RParen]
  }

  /** `part` stands in `s` at position `i`. */
  ghost predicate Stands<T(!new)>(s: seq<T>, i: nat, part: seq<T>) {
    i + |part| <= |s| && forall k :: 0 <= k < |part| ==> s[i + k] == part[k]
  }

  lemma StandsSplit<T(!new)>(s: seq<T>, i: nat, a: seq<T>, b: seq<T>)
    requires Stands(s, i, a + b)
    ensures Stands(s, i, a) && Stands(s, i + |a|, b)
  {
    forall k | 0 <= k < |a| ensures s[i + k] == a[k] {
      assert (a + b)[k] == a[k];
    }
    forall k | 0 <= k < |b| ensures s[i + |a| + k] == b[k] {
      assert (a + b)[|a| + k] == b[k];
      assert s[i + (|a| + k)] == b[k];
    }
  }

  lemma SplitBinary<T(!new)>(s: seq<T>, i: nat, open: T, l: seq<T>, mid: seq<T>, r: seq<T>, close: T)
    requires Stands(s, i, [open] + l + mid + r + [close])
    ensures var a := i + 1 + |l|; var b := a + |mid| + |r|;
            && b < |s| && s[i] == open && s[b] == close
            && Stands(s, i + 1, l) && Stands(s, a, mid) && Stands(s, a + |mid|, r)
  {
    StandsSplit(s, i, [open] + l + mid + r, [close]);
    StandsSplit(s, i, [open] + l + mid, r);
    StandsSplit(s, i, [open] + l, mid);
    StandsSplit(s, i, [open], l);
    var b := i + 1 + |l| + |mid| + |r|;
    assert s[i + 0] == [open][0] && s[b + 0] == [close][0];
  }

  lemma SplitNegation<T(!new)>(s: seq<T>, i: nat, not: T, open: T, e: seq<T>, close: T)
    requires Stands(s, i, [not, open] + e + [close])
    ensures i + 2 + |e| < |s| && s[i] == not && s[i + 1] == open && s[i + 2 + |e|] == close
    ensures Stands(s, i + 2, e)
  {
    StandsSplit(s, i, [not, open] + e, [close]);
    StandsSplit(s, i, [not, open], e);
    assert s[i + 0] == [not, open][0] && s[i + 1] == [not, open][1] && s[i + 2 + |e| + 0] == [close][0];
  }

  lemma LastStands<T(!new)>(s: seq<T>, i: nat, before: seq<T>, last: T)
    requires Stands(s, i, before + [last])
    ensures i + |before| < |s| && s[i + |before|] == last
  {
    assert s[i + |before|] == (before + [last])[|before|];
  }

  /** A printed node inside a longer text is read back as its tokens, whatever comes after it. */
  lemma {:induction false} LexOfEncoding(s: string, i: nat, n: Node)
    requires WellFormed(n) && Stands(s, i, EncodeWhenAst(n))
    requires var j := i + |EncodeWhenAst(n)|; j < |s| ==> !IsIdentifierPart(s[j])
    ensures Reads(s, i, TokensOf(n), i + |EncodeWhenAst(n)|)
    decreases n, 1
  {
    hide Reads, Stands;
    match n {
      case Name(name) =>
        LexName(s, i, name);
      case Negation(node) =>
        SplitNegation(s, i, '!', '(', EncodeWhenAst(node), ')');
        LexOfEncoding(s, i + 2, node);
        LexNegation(s, i, EncodeWhenAst(node), TokensOf(node));
      case Conjunction(left, right) =>
        assert " && " == " " + Spelling(And) + " ";
        LexOfOperands(s, i, n, left, right, And, " && ");
      case Disjunction(left, right) =>
        assert " || " == " " + Spelling(Or) + " ";
        LexOfOperands(s, i, n, left, right, Or, " || ");
    }
  }

  lemma {:induction false} LexOfOperands(
    s: string, i: nat, n: Node, left: Node, right: Node, operator: Token, spelled: string)
    requires left < n && right < n && WellFormed(left) && WellFormed(right)
    requires operator in [And, Or] && spelled == " " + Spelling(operator) + " "
    requires Stands(s, i, "(" + EncodeWhenAst(left) + spelled + EncodeWhenAst(right) + ")")
    ensures Reads(s, i, [LParen] + TokensOf(left) + [operator] + TokensOf(right) + [RParen],
                  i + |EncodeWhenAst(left)| + |EncodeWhenAst(right)| + 6)
    decreases n, 0
  {
    hide Reads, Stands, EncodeWhenAst, TokensOf;
    var l, r := EncodeWhenAst(left), EncodeWhenAst(right);
    BinaryParts(s, i, l, spelled, r);
    LexOfEncoding(s, i + 1, left);
    LexOfEncoding(s, i + 5 + |l|, right);
    LexBinary(s, i, l, r, TokensOf(left), TokensOf(right), operator, spelled);
  }

  lemma IdentifierEndIs(s: string, i: nat, j: nat)
    requires i <= j <= |s| && forall k :: i <= k < j ==> IsIdentifierPart(s[k])
    requires j < |s| ==> !IsIdentifierPart(s[j])
    ensures IdentifierEnd(s, i) == j
  {
  }

  lemma NoOperatorHere(s: string, i: nat)
    requires i < |s| && s[i] != '&' && s[i] != '|'
    ensures !Text.OccursAt(s, "&&", i) && !Text.OccursAt(s, "||", i)
  {
    if i + 2 <= |s| {
      assert s[i..i + 2][0] == s[i];
    }
  }

  lemma LexName(s: string, i: nat, name: string)
    requires IsIdentifier(name) && Stands(s, i, name)
    requires i + |name| < |s| ==> !IsIdentifierPart(s[i + |name|])
    ensures Reads(s, i, [Identifier(name)], i + |name|)
  {
    ScanName(s, i, name);
    hide ScanAt, Stands, IsIdentifier;
  }

  lemma ScanName(s: string, i: nat, name: string)
    requires IsIdentifier(name) && Stands(s, i, name)
    requires i + |name| < |s| ==> !IsIdentifierPart(s[i + |name|])
    ensures i < |s| && ScanAt(s, i) == Lexeme(Identifier(name), i + |name|)
  {
    assert s[i + 0] == name[0];
    forall k | i < k < i + |name| ensures IsIdentifierPart(s[k]) {
      assert s[i + (k - i)] == name[k - i];
    }
    assert s[i..i + |name|] == name;
    IdentifierEndIs(s, i + 1, i + |name|);
    NoOperatorHere(s, i);
    hide IdentifierEnd, Text.OccursAt;
  }

  lemma LexSymbol(s: string, i: nat, token: Token)
    requires token in [Not, LParen, RParen]
    requires i < |s| && s[i] == Spelling(token)[0]
    ensures Reads(s, i, [token], i + 1)
  {
    NoOperatorHere(s, i);
  }

  lemma LexOperator(s: string, a: nat, operator: Token)
    requires operator in [And, Or] && Stands(s, a, " " + Spelling(operator) + " ")
    ensures Reads(s, a, [operator], a + 4)
  {
    var spelled := " " + Spelling(operator) + " ";
    assert s[a + 0] == spelled[0] == ' ' && s[a + 3] == spelled[3] == ' ';
    assert s[a + 1] == spelled[1] == Spelling(operator)[0] && s[a + 2] == spelled[2] == Spelling(operator)[1];
    assert s[a + 1..a + 3] == [s[a + 1], s[a + 2]] == Spelling(operator);
    assert ScanAt(s, a) == Blank && ScanAt(s, a + 3) == Blank;
    assert ScanAt(s, a + 1) == Lexeme(operator, a + 3);
    assert Lex(s, a) == Lex(s, a + 1) && Lex(s, a + 3) == Lex(s, a + 4);
  }

  lemma LexNegation(s: string, i: nat, e: string, t: seq<Token>)
    requires Stands(s, i, "!(" + e + ")") && Reads(s, i + 2, t, i + 2 + |e|)
    ensures Reads(s, i, [Not, LParen] + t + [RParen], i + |e| + 3)
  {
    hide Reads, Stands;
    SplitNegation(s, i, '!', '(', e, ')');
    var j := i + 2 + |e|;
    LexSymbol(s, i, Not);
    LexSymbol(s, i + 1, LParen);
    LexSymbol(s, j, RParen);
    ReadsThen(s, i, [Not], i + 1, [LParen], i + 2);
    ReadsThen(s, i, [Not] + [LParen], i + 2, t, j);
    ReadsThen(s, i, [Not] + [LParen] + t, j, [RParen], j + 1);
    assert [Not] + [LParen] == [Not, LParen];
  }

  lemma BinaryParts(s: string, i: nat, l: string, spelled: string, r: string)
    requires |spelled| > 0 && spelled[0] == ' ' && Stands(s, i, "(" + l + spelled + r + ")")
    ensures var a := i + 1 + |l|; var b := a + |spelled| + |r|;
            && b < |s| && s[i] == '(' && s[a] == ' ' && s[b] == ')'
            && Stands(s, i + 1, l) && Stands(s, a, spelled) && Stands(s, a + |spelled|, r)
  {
    SplitBinary(s, i, '(', l, spelled, r, ')');
    assert s[i + 1 + |l| + 0] == spelled[0];
  }

  lemma LexBinary(s: string, i: nat, l: string, r: string, tl: seq<Token>, tr: seq<Token>,
                  operator: Token, spelled: string)
    requires operator in [And, Or] && spelled == " " + Spelling(operator) + " "
    requires Stands(s, i, "(" + l + spelled + r + ")")
    requires Reads(s, i + 1, tl, i + 1 + |l|) && Reads(s, i + 5 + |l|, tr, i + 5 + |l| + |r|)
    ensures Reads(s, i, [LParen] + tl + [operator] + tr + [RParen], i + |l| + |r| + 6)
  {
    hide Reads, Stands, Lex;
    BinaryParts(s, i, l, spelled, r);
    LexSymbol(s, i, LParen);
    LexOperator(s, i + 1 + |l|, operator);
    LexSymbol(s, i + 5 + |l| + |r|, RParen);
    ReadsFive(s, i, LParen, tl, i + 1 + |l|, operator, tr, i + 5 + |l| + |r|, RParen);
  }

  lemma ReadsFive(
    s: string, i: nat, open: Token, l: seq<Token>, a: nat, mid: Token, r: seq<Token>, b: nat, close: Token)
    requires Reads(s, i, [open], i + 1) && Reads(s, i + 1, l, a) && Reads(s, a, [mid], a + 4)
    requires Reads(s, a + 4, r, b) && Reads(s, b, [close], b + 1)
    ensures Reads(s, i, [open] + l + [mid] + r + [close], b + 1)
  {
    hide Reads;
    ReadsThen(s, i, [open], i + 1, l, a);
    ReadsThen(s, i, [open] + l, a, [mid], a + 4);
    ReadsThen(s, i, [open] + l + [mid], a + 4, r, b);
    ReadsThen(s, i, [open] + l + [mid] + r, b, [close], b + 1);
  }

  // ---------- Which texts are tokenized ----------

  /** A token and the white space before it. */
  datatype Word = Word(gap: string, token: Token)

  function Written(words: seq<Word>, end: string): string {
    if words == [] then end else words[0].gap + (Spelling(words[0].token) + Written(words[1..], end))
  }

  function TokensOfWords(words: seq<Word>): seq<Token> {
    if words == [] then [] else [words[0].token] + TokensOfWords(words[1..])
  }

  predicate IsGap(gap: string) {
    forall k :: 0 <= k < |gap| ==> Text.IsSpace(gap[k])
  }

  predicate IsLegalWord(word: Word) {
    IsGap(word.gap) && (word.token.Identifier? ==> IsIdentifier(word.token.value))
  }

  /** The words are legal, and white space stands between two identifiers. */
  predicate AreApart(words: seq<Word>) {
    words == [] ||
    (&& IsLegalWord(words[0]) && AreApart(words[1..])
     && (words[0].token.Identifier? && |words| > 1 && words[1].token.Identifier? ==> words[1].gap != ""))
  }

  lemma {:induction false} LexSkips(s: string, i: nat, j: nat)
    requires i <= j <= |s| && forall k :: i <= k < j ==> Text.IsSpace(s[k])
    ensures Lex(s, i) == Lex(s, j)
    decreases j - i
  {
    if i == j {
    } else {
      LexSkips(s, i + 1, j);
    }
  }

  lemma LexToken(s: string, i: nat, token: Token)
    requires Stands(s, i, Spelling(token)) && (token.Identifier? ==> IsIdentifier(token.value))
    requires token.Identifier? && i + |token.value| < |s| ==> !IsIdentifierPart(s[i + |token.value|])
    ensures Reads(s, i, [token], i + |Spelling(token)|)
  {
    if token.Identifier? {
      LexName(s, i, token.value);
    } else {
      assert s[i + 0] == Spelling(token)[0];
      if token == And || token == Or {
        assert s[i + 1] == Spelling(token)[1];
        assert s[i..i + 2] == Spelling(token);
        assert ScanAt(s, i) == Lexeme(token, i + 2);
      } else {
        LexSymbol(s, i, token);
      }
    }
  }

  /** What follows an identifier does not go on with it. */
  lemma NextIsApart(words: seq<Word>, end: string)
    requires AreApart(words) && IsGap(end)
    requires words != [] && words[0].token.Identifier? ==> words[0].gap != ""
    ensures Written(words, end) != "" ==> !IsIdentifierPart(Written(words, end)[0])
  {
    if words != [] && words[0].gap == "" {
      assert !IsIdentifierPart(Spelling(words[0].token)[0]);
    }
  }

  lemma {:induction false} LexOfWritten(s: string, i: nat, words: seq<Word>, end: string)
    requires AreApart(words) && IsGap(end)
    requires Stands(s, i, Written(words, end)) && i + |Written(words, end)| == |s|
    ensures Lex(s, i) == Some(TokensOfWords(words))
    decreases |words|
  {
    hide Stands, Lex, IsIdentifier;
    if words == [] {
      GapStands(s, i, end);
      LexSkips(s, i, |s|);
      LexAtEnd(s);
    } else {
      var gap, token, rest := words[0].gap, words[0].token, Written(words[1..], end);
      StandsSplit(s, i, gap, Spelling(token) + rest);
      var j := i + |gap|;
      StandsSplit(s, j, Spelling(token), rest);
      var next := j + |Spelling(token)|;
      GapStands(s, i, gap);
      LexSkips(s, i, j);
      if token.Identifier? {
        NextIsApart(words[1..], end);
        FirstStands(s, next, rest);
      }
      LexToken(s, j, token);
      LexOfWritten(s, next, words[1..], end);
    }
  }

  lemma GapStands(s: string, i: nat, gap: string)
    requires Stands(s, i, gap) && IsGap(gap)
    ensures i + |gap| <= |s| && forall k :: i <= k < i + |gap| ==> Text.IsSpace(s[k])
  {
    forall k | i <= k < i + |gap| ensures Text.IsSpace(s[k]) {
      assert s[i + (k - i)] == gap[k - i];
    }
  }

  lemma FirstStands(s: string, i: nat, part: string)
    requires Stands(s, i, part)
    ensures i + |part| <= |s| && (part != "" ==> s[i] == part[0])
  {
    assert part != "" ==> s[i + 0] == part[0];
  }

  lemma {:induction false} LexedIsWritten(s: string, i: nat) returns (words: seq<Word>, end: string)
    requires i <= |s| && Lex(s, i).Some?
    ensures AreApart(words) && IsGap(end) && s[i..] == Written(words, end)
    ensures Lex(s, i).value == TokensOfWords(words)
    decreases |s| - i
  {
    hide IsIdentifier, ScanAt, Spelling;
    if i == |s| {
      words, end := [], "";
    } else {
      match ScanAt(s, i) {
        case Blank =>
          words, end := LexedIsWritten(s, i + 1);
          BlankIsSpace(s, i);
          assert s[i..] == [s[i]] + s[i + 1..];
          var w, e := words, end;
          if words == [] {
            end := [s[i]] + end;
          } else {
            words := [words[0].(gap := [s[i]] + words[0].gap)] + words[1..];
            WiderGap(s[i], w, e);
          }
        case Lexeme(token, next) =>
          var rest;
          rest, end := LexedIsWritten(s, next);
          LexemeIsText(s, i);
          if token.Identifier? {
            NextNeedsGap(s, i, rest, end);
          }
          words := [Word("", token)] + rest;
          FirstWord(s, i, next, token, rest, end);
      }
    }
  }

  lemma FirstWord(s: string, i: nat, next: nat, token: Token, rest: seq<Word>, end: string)
    requires i <= next <= |s| && s[i..next] == Spelling(token) && s[next..] == Written(rest, end)
    requires AreApart(rest) && (token.Identifier? ==> IsIdentifier(token.value))
    requires token.Identifier? && rest != [] && rest[0].token.Identifier? ==> rest[0].gap != ""
    ensures var words := [Word("", token)] + rest;
            && AreApart(words) && s[i..] == Written(words, end)
            && TokensOfWords(words) == [token] + TokensOfWords(rest)
  {
    hide IsIdentifier;
    var words := [Word("", token)] + rest;
    assert words[1..] == rest;
    assert s[i..] == s[i..next] + s[next..];
    assert Written(words, end) == "" + (Spelling(token) + Written(rest, end));
  }

  lemma WiderGap(c: char, words: seq<Word>, end: string)
    requires words != [] && AreApart(words) && Text.IsSpace(c)
    ensures var wider := [words[0].(gap := [c] + words[0].gap)] + words[1..];
            && AreApart(wider) && Written(wider, end) == [c] + Written(words, end)
            && TokensOfWords(wider) == TokensOfWords(words)
  {
    hide IsIdentifier, Spelling;
    var first, rest := words[0].(gap := [c] + words[0].gap), words[1..];
    var wider := [first] + rest;
    assert wider[1..] == rest && words == [words[0]] + rest;
    assert AreApart(wider);
    hide AreApart;
    var tail := Spelling(first.token) + Written(rest, end);
    assert Written(wider, end) == first.gap + tail && Written(words, end) == words[0].gap + tail;
    hide Written;
    assert [c] + words[0].gap + tail == [c] + (words[0].gap + tail);
  }

  lemma NameFirst(words: seq<Word>, end: string)
    requires AreApart(words) && words != [] && words[0].token.Identifier? && words[0].gap == ""
    ensures Written(words, end) != "" && IsIdentifierPart(Written(words, end)[0])
  {
  }

  /** An identifier that is read ends where no character can go on with it. */
  lemma NextNeedsGap(s: string, i: nat, rest: seq<Word>, end: string)
    requires i < |s| && ScanAt(s, i).Lexeme? && ScanAt(s, i).token.Identifier?
    requires AreApart(rest) && s[ScanAt(s, i).next..] == Written(rest, end)
    ensures rest != [] && rest[0].token.Identifier? ==> rest[0].gap != ""
  {
    var next := ScanAt(s, i).next;
    assert next == IdentifierEnd(s, i + 1);
    assert s[next..] != "" ==> s[next..][0] == s[next] && !IsIdentifierPart(s[next]);
    hide IdentifierEnd, ScanAt, Written, IsIdentifierPart, AreApart;
    if rest != [] && rest[0].token.Identifier? && rest[0].gap == "" {
      NameFirst(rest, end);
    }
  }

  /** A text is tokenized exactly when it consists of tokens with any white space between them, some of
      it between two identifiers; and then into those tokens. */
  lemma TokenizerMatchesWords(s: string, tokens: seq<Token>)
    ensures Lex(s, 0) == Some(tokens) <==>
            exists words, end ::
              AreApart(words) && IsGap(end) && s == Written(words, end) && tokens == TokensOfWords(words)
  {
    hide Lex, AreApart, Written, TokensOfWords, Stands;
    assert s[0..] == s;
    if Lex(s, 0) == Some(tokens) {
      var words, end := LexedIsWritten(s, 0);
    }
    if words, end :| AreApart(words) && IsGap(end) && s == Written(words, end) && tokens == TokensOfWords(words) {
      StandsWhole(s);
      LexOfWritten(s, 0, words, end);
    }
  }

  /** `n` if its parentheses fit under `d` open ones, a refusal otherwise. */
  function IfFits(n: Node, next: nat, d: nat): Parsed {
    if d + PrintedDepth(n) <= MAX_WHEN_EXPRESSION_DEPTH then Accepted(n, next) else Rejected
  }

  /** The printed tokens of `n`, met anywhere, are read back as `n` exactly when the parentheses
      already open plus the printed depth stay within the bound, and refused otherwise. */
  lemma {:induction false} ParseOfTokens(tokens: seq<Token>, i: nat, n: Node, d: nat)
    requires Stands(tokens, i, TokensOf(n))
    ensures Unary(tokens, i, d, 0) == IfFits(n, i + |TokensOf(n)|, d)
    decreases n, 1
  {
    hide Stands, Unary, IfFits;
    match n {
      case Name(name) =>
        ParseName(tokens, i, name, d);
      case Negation(node) =>
        var t := TokensOf(node);
        SplitNegation(tokens, i, Not, LParen, t, RParen);
        ParseOfTokens(tokens, i + 2, node, d + 1);
        ParseNegation(tokens, i, node, i + 2 + |t|, d);
      case Conjunction(left, right) =>
        ParseOfOperands(tokens, i, n, left, right, And, d);
      case Disjunction(left, right) =>
        ParseOfOperands(tokens, i, n, left, right, Or, d);
    }
  }

  lemma {:induction false} ParseOfOperands(
    tokens: seq<Token>, i: nat, n: Node, left: Node, right: Node, operator: Token, d: nat)
    requires left < n && right < n
    requires (n == Conjunction(left, right) && operator == And) || (n == Disjunction(left, right) && operator == Or)
    requires Stands(tokens, i, [LParen] + TokensOf(left) + [operator] + TokensOf(right) + [RParen])
    ensures Unary(tokens, i, d, 0) == IfFits(n, i + |TokensOf(left)| + |TokensOf(right)| + 3, d)
    decreases n, 0
  {
    hide Stands, Unary, IfFits, TokensOf;
    var l, r := TokensOf(left), TokensOf(right);
    SplitBinary(tokens, i, LParen, l, [operator], r, RParen);
    LastStands(tokens, i + 1 + |l|, [], operator);
    ParseOfTokens(tokens, i + 1, left, d + 1);
    ParseOfTokens(tokens, i + 2 + |l|, right, d + 1);
    ParseBinary(tokens, i, n, left, right, i + 1 + |l|, i + 2 + |l| + |r|, d);
  }

  lemma ParseName(tokens: seq<Token>, i: nat, name: string, d: nat)
    requires Stands(tokens, i, [Identifier(name)])
    ensures Unary(tokens, i, d, 0) == IfFits(Name(name), i + 1, d)
  {
    assert tokens[i + 0] == [Identifier(name)][0];
  }

  lemma ParseNegation(tokens: seq<Token>, i: nat, node: Node, close: nat, d: nat)
    requires i + 2 <= close < |tokens|
    requires tokens[i] == Not && tokens[i + 1] == LParen && tokens[close] == RParen
    requires Unary(tokens, i + 2, d + 1, 0) == IfFits(node, close, d + 1)
    ensures Unary(tokens, i, d, 0) == IfFits(Negation(node), close + 1, d)
  {
    UnaryThenClose(tokens, i + 2, d + 1);
    Enclosed(tokens, i + 1, d);
    UnaryNot(tokens, i, d);
  }

  lemma ParseBinary(tokens: seq<Token>, i: nat, n: Node, left: Node, right: Node, a: nat, b: nat, d: nat)
    requires i < a < b < |tokens| && tokens[i] == LParen && tokens[b] == RParen
    requires (n == Conjunction(left, right) && tokens[a] == And) || (n == Disjunction(left, right) && tokens[a] == Or)
    requires Unary(tokens, i + 1, d + 1, 0) == IfFits(left, a, d + 1)
    requires Unary(tokens, a + 1, d + 1, 0) == IfFits(right, b, d + 1)
    ensures Unary(tokens, i, d, 0) == IfFits(n, b + 1, d)
  {
    hide Unary, Disjuncts, Primary;
    if n.Conjunction? {
      ConjunctionThenClose(tokens, i + 1, d + 1, left, a);
    } else {
      DisjunctionThenClose(tokens, i + 1, d + 1, left, a);
    }
    Enclosed(tokens, i, d);
  }

  lemma UnaryNot(tokens: seq<Token>, i: nat, d: nat)
    requires i + 1 < |tokens| && tokens[i] == Not && tokens[i + 1] == LParen
    ensures Unary(tokens, i, d, 0) ==
            var p := Primary(tokens, i + 1, d);
            if p.Rejected? then Rejected else Accepted(Negation(p.node), p.next)
  {
    assert Unary(tokens, i + 1, d, 1) == Primary(tokens, i + 1, d);
  }

  lemma Enclosed(tokens: seq<Token>, i: nat, d: nat)
    requires i < |tokens| && tokens[i] == LParen
    ensures Unary(tokens, i, d, 0) == Primary(tokens, i, d)
    ensures var inner := Disjuncts(tokens, i + 1, d + 1);
            Primary(tokens, i, d) ==
            if d <= MAX_WHEN_EXPRESSION_DEPTH && inner.Accepted? && At(tokens, inner.next, RParen)
            then Accepted(inner.node, inner.next + 1) else Rejected
  {
  }

  lemma UnaryThenClose(tokens: seq<Token>, i: nat, d: nat)
    requires i <= |tokens|
    requires var p := Unary(tokens, i, d, 0); p.Accepted? ==> At(tokens, p.next, RParen)
    ensures Disjuncts(tokens, i, d) == Unary(tokens, i, d, 0)
  {
    var p := Unary(tokens, i, d, 0);
    assert Conjuncts(tokens, i, d) == p;
  }

  lemma ConjunctionThenClose(tokens: seq<Token>, i: nat, d: nat, left: Node, a: nat)
    requires i <= |tokens| && At(tokens, a, And)
    requires Unary(tokens, i, d, 0) in [Rejected, Accepted(left, a)]
    requires var rp := Unary(tokens, a + 1, d, 0); rp.Accepted? ==> At(tokens, rp.next, RParen)
    ensures var rp := Unary(tokens, a + 1, d, 0);
            Disjuncts(tokens, i, d) ==
            if Unary(tokens, i, d, 0).Rejected? || rp.Rejected? then Rejected
            else Accepted(Conjunction(left, rp.node), rp.next)
  {
    var rp := Unary(tokens, a + 1, d, 0);
    if rp.Accepted? {
      var node := Conjunction(left, rp.node);
      assert ConjunctTail(tokens, rp.next, node, d) == Accepted(node, rp.next);
      assert ConjunctTail(tokens, a, left, d) == Accepted(node, rp.next);
    } else {
      assert ConjunctTail(tokens, a, left, d) == Rejected;
    }
  }

  lemma DisjunctionThenClose(tokens: seq<Token>, i: nat, d: nat, left: Node, a: nat)
    requires i <= |tokens| && At(tokens, a, Or)
    requires Unary(tokens, i, d, 0) in [Rejected, Accepted(left, a)]
    requires var rp := Unary(tokens, a + 1, d, 0); rp.Accepted? ==> At(tokens, rp.next, RParen)
    ensures var rp := Unary(tokens, a + 1, d, 0);
            Disjuncts(tokens, i, d) ==
            if Unary(tokens, i, d, 0).Rejected? || rp.Rejected? then Rejected
            else Accepted(Disjunction(left, rp.node), rp.next)
  {
    var rp := Unary(tokens, a + 1, d, 0);
    assert Conjuncts(tokens, i, d) == Unary(tokens, i, d, 0);
    assert Conjuncts(tokens, a + 1, d) == rp;
    if rp.Accepted? {
      var node := Disjunction(left, rp.node);
      assert DisjunctTail(tokens, rp.next, node, d) == Accepted(node, rp.next);
      assert DisjunctTail(tokens, a, left, d) == Accepted(node, rp.next);
    } else {
      assert DisjunctTail(tokens, a, left, d) == Rejected;
    }
  }

  /** Printing and parsing give back the AST exactly when its printed depth is within the bound. */
  lemma EncodeThenParse(n: Node)
    requires WellFormed(n)
    ensures ParseWhen(EncodeWhenAst(n)) ==
            if PrintedDepth(n) <= MAX_WHEN_EXPRESSION_DEPTH then Some(n) else None
  {
    hide Lex, EncodeWhenAst, TokensOf, WellFormed, PrintedDepth, Disjuncts, Unary, Stands, IfFits;
    var t := TokensOf(n);
    LexOfWhole(n);
    ParseOfTokens(t, 0, n, 0);
    ParseToEnd(t, n);
    Fitting(n, |t|);
  }

  lemma Fitting(n: Node, next: nat)
    ensures IfFits(n, next, 0) ==
            if PrintedDepth(n) <= MAX_WHEN_EXPRESSION_DEPTH then Accepted(n, next) else Rejected
  {
  }

  lemma LexOfWhole(n: Node)
    requires WellFormed(n)
    ensures Lex(EncodeWhenAst(n), 0) == Some(TokensOf(n)) && TokensOf(n) != []
    ensures Stands(TokensOf(n), 0, TokensOf(n))
  {
    hide Lex, EncodeWhenAst, TokensOf, WellFormed;
    var s, t := EncodeWhenAst(n), TokensOf(n);
    TokensExist(n);
    LexOfEncoding(s, 0, n);
    LexAtEnd(s);
    assert t + [] == t;
  }

  lemma TokensExist(n: Node)
    ensures TokensOf(n) != []
  {
  }

  lemma LexAtEnd(s: string)
    ensures Lex(s, |s|) == Some([])
  {
  }

  lemma ParseToEnd(t: seq<Token>, n: Node)
    requires Unary(t, 0, 0, 0) == IfFits(n, |t|, 0) && t != []
    ensures Disjuncts(t, 0, 0) == IfFits(n, |t|, 0)
  {
    assert Conjuncts(t, 0, 0) == IfFits(n, |t|, 0);
  }

  // ---------- What the parser yields ----------

  lemma {:induction false} NamesComeFromTokens(
    tokens: seq<Token>, i: nat, j: nat, n: Node, d: nat, level: nat, nots: nat)
    requires i <= j <= |tokens|
    requires forall t :: t in tokens && t.Identifier? ==> IsIdentifier(t.value)
    requires level == 0 ==> IsPrimary(tokens, i, j, n, d)
    requires level == 1 ==> IsUnary(tokens, i, j, n, d, nots)
    requires level == 2 ==> IsAnd(tokens, i, j, n, d)
    requires level == 3 ==> IsOr(tokens, i, j, n, d)
    requires level <= 3
    ensures WellFormed(n)
    decreases j - i, level
  {
    if level == 0 {
      if tokens[i] == LParen {
        NamesComeFromTokens(tokens, i + 1, j - 1, n, d + 1, 3, 0);
      } else {
        assert tokens[i] in tokens;
      }
    } else if level == 1 {
      if IsPrimary(tokens, i, j, n, d) {
        NamesComeFromTokens(tokens, i, j, n, d, 0, 0);
      } else {
        NamesComeFromTokens(tokens, i + 1, j, n.node, d, 1, nots + 1);
      }
    } else if level == 2 {
      if IsUnary(tokens, i, j, n, d, 0) {
        NamesComeFromTokens(tokens, i, j, n, d, 1, 0);
      } else {
        var k :| i <= k < j && tokens[k] == And
          && IsAnd(tokens, i, k, n.left, d) && IsUnary(tokens, k + 1, j, n.right, d, 0);
        NamesComeFromTokens(tokens, i, k, n.left, d, 2, 0);
        NamesComeFromTokens(tokens, k + 1, j, n.right, d, 1, 0);
      }
    } else {
      if IsAnd(tokens, i, j, n, d) {
        NamesComeFromTokens(tokens, i, j, n, d, 2, 0);
      } else {
        var k :| i <= k < j && tokens[k] == Or
          && IsOr(tokens, i, k, n.left, d) && IsAnd(tokens, k + 1, j, n.right, d);
        NamesComeFromTokens(tokens, i, k, n.left, d, 3, 0);
        NamesComeFromTokens(tokens, k + 1, j, n.right, d, 2, 0);
      }
    }
  }

  /** Re-encoding what was parsed: the text that comes back is read as the same AST exactly when
      the AST prints within the bound. */
  lemma ParseThenEncode(expression: string)
    requires ParseWhen(expression).Some?
    ensures var n := ParseWhen(expression).value;
            ParseWhen(EncodeWhenAst(n)) ==
            if PrintedDepth(n) <= MAX_WHEN_EXPRESSION_DEPTH then Some(n) else None
  {
    var n := ParseWhen(expression).value;
    ParserMatchesGrammar(expression, n);
    LexKeepsText(expression, 0);
    var tokens := Lex(expression, 0).value;
    NamesComeFromTokens(tokens, 0, |tokens|, n, 0, 3, 0);
    EncodeThenParse(n);
  }

  /** `a&&a&&...&&a` with `k` operators: flat to read, nested to print. */
  function FlatChain(k: nat): string {
    "a" + FlatTail(k)
  }

  function FlatTail(k: nat): string {
    if k == 0 then "" else "&&a" + FlatTail(k - 1)
  }

  function FlatTokens(k: nat): seq<Token> {
    seq(2 * k, x => if x % 2 == 0 then And else Identifier("a"))
  }

  function LeftChain(k: nat): Node {
    if k == 0 then Name("a") else Conjunction(LeftChain(k - 1), Name("a"))
  }

  lemma {:induction false} LexOfFlatTail(s: string, i: nat, k: nat)
    requires Stands(s, i, FlatTail(k)) && i + |FlatTail(k)| == |s|
    ensures Reads(s, i, FlatTokens(k), |s|)
    ensures i < |s| ==> s[i] == '&'
    decreases k
  {
    hide Reads, Stands;
    if k == 0 {
      ReadsNothing(s, i);
    } else {
      StandsSplit(s, i, "&&a", FlatTail(k - 1));
      LexOfFlatTail(s, i + 3, k - 1);
      LexFlatStep(s, i);
      ReadsThen(s, i, [And, Identifier("a")], i + 3, FlatTokens(k - 1), |s|);
      assert [And, Identifier("a")] + FlatTokens(k - 1) == FlatTokens(k);
    }
  }

  lemma LexFlatStep(s: string, i: nat)
    requires Stands(s, i, "&&a") && (i + 3 < |s| ==> s[i + 3] == '&')
    ensures Reads(s, i, [And, Identifier("a")], i + 3) && s[i] == '&'
  {
    assert "&&a" == "&&" + "a";
    StandsSplit(s, i, "&&", "a");
    assert s[i + 0] == "&&"[0] && s[i + 1] == "&&"[1];
    assert s[i..i + 2] == "&&";
    assert ScanAt(s, i) == Lexeme(And, i + 2);
    assert Reads(s, i, [And], i + 2);
    LexName(s, i + 2, "a");
    ReadsThen(s, i, [And], i + 2, [Identifier("a")], i + 3);
    assert [And] + [Identifier("a")] == [And, Identifier("a")];
  }

  lemma {:induction false} FlatChainIsAnd(tokens: seq<Token>, k: nat)
    requires 2 * k + 1 <= |tokens| && tokens[0] == Identifier("a")
    requires forall x :: 0 <= x < k ==> tokens[2 * x + 1] == And && tokens[2 * x + 2] == Identifier("a")
    ensures IsAnd(tokens, 0, 2 * k + 1, LeftChain(k), 0)
    decreases k
  {
    if k == 0 {
    } else {
      FlatChainIsAnd(tokens, k - 1);
      assert tokens[2 * (k - 1) + 1] == And && tokens[2 * (k - 1) + 2] == Identifier("a");
      assert IsUnary(tokens, 2 * k, 2 * k + 1, Name("a"), 0, 0);
    }
  }

  lemma LexOfFlatChain(k: nat)
    ensures Lex(FlatChain(k), 0) == Some([Identifier("a")] + FlatTokens(k))
  {
    hide Lex, FlatTail, FlatTokens, Stands;
    var s := FlatChain(k);
    StandsWhole(s);
    StandsSplit(s, 0, "a", FlatTail(k));
    LexOfFlatTail(s, 1, k);
    assert IsIdentifier("a");
    LexName(s, 0, "a");
    var tokens := [Identifier("a")] + FlatTokens(k);
    ReadsThen(s, 0, [Identifier("a")], 1, FlatTokens(k), |s|);
    LexAtEnd(s);
    assert tokens + [] == tokens;
  }

  lemma StandsWhole<T(!new)>(s: seq<T>)
    ensures Stands(s, 0, s)
  {
  }

  lemma {:induction false} FlatTailLength(k: nat)
    ensures |FlatTail(k)| == 3 * k
  {
    if k == 0 {
    } else {
      FlatTailLength(k - 1);
    }
  }

  /** Every flat chain parses, but its encoding parses only while the chain is short enough. With
      65 operators a chain has 196 characters, within the 256 that a rule may have, so a rule the
      parser accepts can turn into one it refuses. */
  lemma FlatChainsParseButMayNotReparse(k: nat)
    ensures |FlatChain(k)| == 3 * k + 1
    ensures ParseWhen(FlatChain(k)) == Some(LeftChain(k))
    ensures ParseWhen(EncodeWhenAst(LeftChain(k))) ==
            if k <= MAX_WHEN_EXPRESSION_DEPTH then Some(LeftChain(k)) else None
  {
    FlatTailLength(k);
    LexOfFlatChain(k);
    var tokens := [Identifier("a")] + FlatTokens(k);
    FlatChainIsAnd(tokens, k);
    hide ParseWhen, Lex, FlatTail, EncodeWhenAst, IsAnd, LeftChain, PrintedDepth;
    assert |tokens| == 2 * k + 1 && IsOr(tokens, 0, |tokens|, LeftChain(k), 0);
    ParserMatchesGrammar(FlatChain(k), LeftChain(k));
    LeftChainDepth(k);
    EncodeThenParse(LeftChain(k));
  }

  lemma LeftChainDepth(k: nat)
    ensures PrintedDepth(LeftChain(k)) == k && WellFormed(LeftChain(k))
  {
  }
}
