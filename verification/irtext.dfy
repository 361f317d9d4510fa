/** The printer of the IR (frontend/core/to_ir.py) and the parser that reads it back
    (backend/codegen/IrParser.py).

    Expressions, indices and tensors are printed on one line; a statement is printed over several
    indented lines, or on one line below level 0.  The parser walks over the tokens with a
    position; comma-separated names after a tensor head become several variables, and a single name
    is stepped back over and parsed as an expression.

    Main results: the printed text has the tokens of its tree at any level (StmtSays), and parsing
    it gives the tree's node, or fails where the tree has an operator the parser does not know
    (PrintedStatementParses). */
module IrText {
  import opened Ast
  import opened Text
  import Sexps

  // ---------------------------------------------------------------------------------------------
  // Tokens

  predicate IsPunct(c: char) { c == '(' || c == ')' || c == ',' }

  /** `re.sub(r';.*', '', code)`: a comment runs to the end of its line. */
  function StripComments(s: string, inside: bool): string {
    if s == [] then []
    else if s[0] == '\n' then [s[0]] + StripComments(s[1..], false)
    else if inside || s[0] == ';' then StripComments(s[1..], true)
    else [s[0]] + StripComments(s[1..], false)
  }

  function Pad(s: string): string {
    if s == [] then []
    else (if IsPunct(s[0]) then " " + [s[0]] + " " else [s[0]]) + Pad(s[1..])
  }

  function Tokens(s: string): seq<string> { Sexps.Words(Pad(s), []) }

  /** The tokeniser: parentheses, commas and words. */
  function Tokenize(code: string): seq<string> { Tokens(StripComments(code, false)) }

  lemma {:induction false} NoComments(s: string)
    requires ';' !in s
    ensures StripComments(s, false) == s
  {
    if s != [] {
      NoComments(s[1..]);
      assert s == [s[0]] + s[1..];
    }
  }

  lemma {:induction false} PadAppend(a: string, b: string)
    ensures Pad(a + b) == Pad(a) + Pad(b)
  {
    if a == [] {
      assert a + b == b;
    } else {
      assert (a + b)[1..] == a[1..] + b;
      PadAppend(a[1..], b);
    }
  }

  lemma AtSpace(a: string, c: char, b: string)
    requires Sexps.IsSpace(c)
    ensures Tokens(a + [c] + b) == Tokens(a) + Tokens(b)
  {
    PadAppend(a + [c], b);
    PadAppend(a, [c]);
    assert Pad([c]) == [c];
    Sexps.WordsAtSpace(Pad(a), c, Pad(b), []);
  }

  lemma AtPunct(a: string, c: char, b: string)
    requires IsPunct(c)
    ensures Tokens(a + [c] + b) == Tokens(a) + [[c]] + Tokens(b)
  {
    PadAppend(a + [c], b);
    PadAppend(a, [c]);
    var pa, pb := Pad(a), Pad(b);
    assert Pad([c]) == " " + [c] + " ";
    assert Pad(a + [c] + b) == pa + [' '] + ([c] + [' '] + pb);
    Sexps.WordsAtSpace(pa, ' ', [c] + [' '] + pb, []);
    Sexps.WordsAtSpace([c], ' ', pb, []);
    assert [c][1..] == [] && [] + [c] == [c];
    assert Sexps.Words([c], []) == Sexps.Words([], [c]);
  }

  /** A word the tokeniser keeps whole. */
  predicate IsWord(w: string) {
    w != [] && forall c :: c in w ==> !Sexps.IsSpace(c) && !IsPunct(c) && c != ';'
  }

  lemma WordTokens(w: string)
    requires IsWord(w)
    ensures Tokens(w) == [w]
  {
    PadWord(w);
    Sexps.WordsClean(w, []);
    assert [] + w == w;
  }

  lemma {:induction false} PadWord(w: string)
    requires forall c :: c in w ==> !IsPunct(c)
    ensures Pad(w) == w
  {
    if w != [] {
      PadWord(w[1..]);
      assert w == [w[0]] + w[1..];
    }
  }

  // ---------------------------------------------------------------------------------------------
  // Trees of words

  /** What is printed: words, tensors with their comma-separated names, and operators on operands. */
  datatype Tree = Word(w: string) | Names(head: string, parts: seq<string>) | Form(op: string, items: seq<Tree>)

  predicate IsTensorHead(s: string) { s == "tensor" || s == "input" || s == "output" }

  predicate WellSpelled(t: Tree) {
    match t
    case Word(w) => IsWord(w)
    case Names(h, ps) => IsTensorHead(h) && ps != [] && forall k :: 0 <= k < |ps| ==> IsWord(ps[k])
    case Form(op, items) => IsWord(op) && !IsTensorHead(op) && forall k :: 0 <= k < |items| ==> WellSpelled(items[k])
  }

  function CommaTokens(parts: seq<string>): seq<string> {
    if parts == [] then [] else if |parts| == 1 then [parts[0]] else [parts[0], ","] + CommaTokens(parts[1..])
  }

  function TreeTokens(t: Tree): seq<string>
    decreases t, 1
  {
    match t
    case Word(w) => [w]
    case Names(h, ps) => ["(", h] + CommaTokens(ps) + [")"]
    case Form(op, items) => ["(", op] + ForestTokens(items) + [")"]
  }

  function ForestTokens(ts: seq<Tree>): seq<string>
    decreases ts, 0
  {
    if ts == [] then [] else TreeTokens(ts[0]) + ForestTokens(ts[1..])
  }

  /** The one-line text of a tree. */
  function Inline(t: Tree): string
    decreases t, 1
  {
    match t
    case Word(w) => w
    case Names(h, ps) => "(" + h + " " + JoinNames(ps) + ")"
    case Form(op, items) => "(" + op + " " + InlineAll(items) + ")"
  }

  /** `" ".join(...)`. */
  function InlineAll(ts: seq<Tree>): string
    decreases ts, 0
  {
    if ts == [] then "" else if |ts| == 1 then Inline(ts[0]) else Inline(ts[0]) + " " + InlineAll(ts[1..])
  }

  lemma {:induction false} NamesTokens(parts: seq<string>)
    requires forall k :: 0 <= k < |parts| ==> IsWord(parts[k])
    ensures Tokens(JoinNames(parts)) == CommaTokens(parts) && ';' !in JoinNames(parts)
  {
    if parts == [] {
    } else {
      WordTokens(parts[0]);
      if |parts| > 1 {
        NamesTokens(parts[1..]);
        AtPunct(parts[0], ',', JoinNames(parts[1..]));
        assert parts[0] + "," + JoinNames(parts[1..]) == parts[0] + [','] + JoinNames(parts[1..]);
      }
    }
  }

  /** A text between parentheses. */
  lemma WrappedTokens(head: string, inside: string)
    requires IsWord(head)
    ensures Tokens("(" + head + " " + inside + ")") == ["(", head] + Tokens(inside) + [")"]
    ensures ';' !in inside ==> ';' !in "(" + head + " " + inside + ")"
  {
    var text := "(" + head + " " + inside;
    AtPunct(text, ')', "");
    assert text + [')'] + "" == "(" + head + " " + inside + ")";
    var start := "(" + head;
    AtSpace(start, ' ', inside);
    assert start + [' '] + inside == text;
    AtPunct("", '(', head);
    assert "" + ['('] + head == start;
    WordTokens(head);
    assert Tokens("") == [];
  }

  lemma {:induction false} InlineTokens(t: Tree)
    requires WellSpelled(t)
    ensures Tokens(Inline(t)) == TreeTokens(t) && ';' !in Inline(t)
    decreases t, 1
  {
    match t
    case Word(w) => WordTokens(w);
    case Names(h, ps) => TensorTokens(h, ps);
    case Form(op, items) =>
      InlineAllTokens(items);
      FormTokens(op, items);
  }

  lemma TensorTokens(h: string, ps: seq<string>)
    requires WellSpelled(Names(h, ps))
    ensures Tokens(Inline(Names(h, ps))) == TreeTokens(Names(h, ps)) && ';' !in Inline(Names(h, ps))
  {
    NamesTokens(ps);
    HeadIsWord(h);
    WrappedTokens(h, JoinNames(ps));
  }

  lemma HeadIsWord(h: string)
    requires IsTensorHead(h)
    ensures IsWord(h)
  {
  }

  lemma FormTokens(op: string, items: seq<Tree>)
    requires IsWord(op) && Tokens(InlineAll(items)) == ForestTokens(items) && ';' !in InlineAll(items)
    ensures Tokens(Inline(Form(op, items))) == TreeTokens(Form(op, items)) && ';' !in Inline(Form(op, items))
  {
    WrappedTokens(op, InlineAll(items));
  }

  lemma {:induction false} InlineAllTokens(ts: seq<Tree>)
    requires forall k :: 0 <= k < |ts| ==> WellSpelled(ts[k])
    ensures Tokens(InlineAll(ts)) == ForestTokens(ts) && ';' !in InlineAll(ts)
    decreases ts, 0
  {
    if ts != [] {
      InlineTokens(ts[0]);
      if |ts| == 1 {
        assert ForestTokens(ts[1..]) == [];
      } else {
        InlineAllTokens(ts[1..]);
        AtSpace(Inline(ts[0]), ' ', InlineAll(ts[1..]));
        assert Inline(ts[0]) + [' '] + InlineAll(ts[1..]) == InlineAll(ts);
      }
    }
  }

  // ---------------------------------------------------------------------------------------------
  // The parser

  /** The node types of the back end. */
  datatype Kind =
    | PLOOP | SLOOP | INPUT | OUTPUT | TENSOR | TILE | FULLTILE | INDEX | LOAD | STORE | SEQ | ADD | SUB
    | MUL | DIV | LE | MATMUL | EXP | SQR | SQRT | SIGMOID | ERF | CAST | ABS | MAX | MIN | RMAX | RMIN
    | RSUM | CONCAT | BCAST | DUMMY | ELEM | PERMUTE3 | TRANSPOSE | SQUEEZE | UNSQUEEZE | CONST_TILE

  datatype Node = NumNode(value: int) | VarNode(name: string) | FullTileNode | DummyNode | OpNode(kind: Kind,
    children: seq<Node>)

  datatype ParseError = UnexpectedEnd | MissingClose | UnknownOperation(op: string)
  datatype Result<+T> = Ok(value: T) | Err(error: ParseError)

  predicate AllDigits(s: string) { s != [] && forall c :: c in s ==> '0' <= c <= '9' }

  function NodeOfWord(w: string): Node {
    if AllDigits(w) then NumNode(NatValue(w))
    else if w != [] && w[0] == '-' && AllDigits(w[1..]) then NumNode(-NatValue(w[1..]))
    else if w == "fulltile" then FullTileNode
    else if w == "dummy" then DummyNode
    else VarNode(w)
  }

  /** The operator that is parsed to a kind. */
  function OpOf(k: Kind): string {
    match k
    case PLOOP => "ploop"
    case SLOOP => "sloop"
    case INPUT => "input"
    case OUTPUT => "output"
    case TENSOR => "tensor"
    case TILE => "tile"
    case FULLTILE => "fulltile"
    case INDEX => "index"
    case LOAD => "load"
    case STORE => "store"
    case SEQ => "seq"
    case ADD => "+"
    case SUB => "-"
    case MUL => "*"
    case DIV => "/"
    case LE => "<="
    case MATMUL => "@"
    case EXP => "exp"
    case SQR => "sqr"
    case SQRT => "sqrt"
    case SIGMOID => "sigmoid"
    case ERF => "erf"
    case CAST => "cast"
    case ABS => "abs"
    case MAX => "max"
    case MIN => "min"
    case RMAX => "rmax"
    case RMIN => "rmin"
    case RSUM => "rsum"
    case CONCAT => "concat"
    case BCAST => "bcast"
    case DUMMY => "dummy"
    case ELEM => "elem"
    case PERMUTE3 => "permute3"
    case TRANSPOSE => "transpose"
    case SQUEEZE => "squeeze"
    case UNSQUEEZE => "unsqueeze"
    case CONST_TILE => "const_tile"
  }

  const KINDS: seq<Kind> := [
    PLOOP, SLOOP, INPUT, OUTPUT, TENSOR, TILE, FULLTILE, INDEX, LOAD, STORE, SEQ, ADD, SUB, MUL, DIV, LE,
    MATMUL, EXP, SQR, SQRT, SIGMOID, ERF, CAST, ABS, MAX, MIN, RMAX, RMIN, RSUM, CONCAT, BCAST, DUMMY, ELEM,
    PERMUTE3, TRANSPOSE, SQUEEZE, UNSQUEEZE, CONST_TILE
  ]

  function Find(ks: seq<Kind>, op: string): Option<Kind> {
    if ks == [] then None else if OpOf(ks[0]) == op then Some(ks[0]) else Find(ks[1..], op)
  }

  /** The parser's own table; both permutations have one kind. */
  function KindOf(op: string): Option<Kind> { if op == "permute4" then Some(PERMUTE3) else Find(KINDS, op) }

  /** The parser is stated over any table of operators; its own is KindOf. */
  type Kinds = string -> Option<Kind>

  /** The names of a tensor, from position p, and where they end. */
  function CollectNames(ts: seq<string>, p: nat, names: seq<string>): (r: (seq<string>, nat))
    requires p <= |ts|
    ensures p <= r.1 <= |ts|
    decreases |ts| - p
  {
    if p == |ts| || ts[p] == ")" then (names, p)
    else if ts[p] == "," then CollectNames(ts, p + 1, names)
    else if p + 1 < |ts| && ts[p + 1] == "," then CollectNames(ts, p + 1, names + [ts[p]])
    else (names + [ts[p]], p + 1)
  }

  function VarNodes(names: seq<string>): (r: seq<Node>)
    ensures |r| == |names|
  {
    seq(|names|, k requires 0 <= k < |names| => VarNode(names[k]))
  }

  /** `parse_expression` at a position: the node and the position after it. */
  function ParseAt(kinds: Kinds, ts: seq<string>, pos: nat): (r: Result<(Node, nat)>)
    requires pos <= |ts|
    ensures r.Ok? ==> pos < r.value.1 <= |ts|
    decreases |ts| - pos, 2
  {
    if pos == |ts| then Err(UnexpectedEnd)
    else if ts[pos] == "(" then ParseListAt(kinds, ts, pos)
    else Ok((NodeOfWord(ts[pos]), pos + 1))
  }

  function ParseListAt(kinds: Kinds, ts: seq<string>, pos: nat): (r: Result<(Node, nat)>)
    requires pos < |ts|
    ensures r.Ok? ==> pos < r.value.1 <= |ts|
    decreases |ts| - pos, 1
  {
    if pos + 1 == |ts| then Err(UnexpectedEnd)
    else
      var op := ts[pos + 1];
      match (if IsTensorHead(op) then ParseNamesAt(kinds, ts, pos + 2) else ParseItemsAt(kinds, ts, pos + 2))
      case Err(e) => Err(e)
      case Ok((children, p)) =>
        if p == |ts| then Err(MissingClose)
        else
          match kinds(op)
          case Some(kind) => Ok((OpNode(kind, children), p + 1))
          case None => Err(UnknownOperation(op))
  }

  /** Several names become variables; one is parsed again as an expression. */
  function ParseNamesAt(kinds: Kinds, ts: seq<string>, p: nat): (r: Result<(seq<Node>, nat)>)
    requires 2 <= p <= |ts|
    ensures r.Ok? ==> p - 1 < r.value.1 <= |ts|
    decreases |ts| - p + 1, 3
  {
    var (names, after) := CollectNames(ts, p, []);
    if |names| > 1 then Ok((VarNodes(names), after))
    else
      match ParseAt(kinds, ts, after - 1)
      case Err(e) => Err(e)
      case Ok((n, q)) => Ok(([n], q))
  }

  function ParseItemsAt(kinds: Kinds, ts: seq<string>, p: nat): (r: Result<(seq<Node>, nat)>)
    requires p <= |ts|
    ensures r.Ok? ==> p <= r.value.1 <= |ts|
    decreases |ts| - p, 3
  {
    if p == |ts| || ts[p] == ")" then Ok(([], p))
    else
      match ParseAt(kinds, ts, p)
      case Err(e) => Err(e)
      case Ok((n, q)) =>
        match ParseItemsAt(kinds, ts, q)
        case Err(e) => Err(e)
        case Ok((ns, z)) => Ok(([n] + ns, z))
  }

  /** The parser as it runs over its tokens and position. */
  class IRParser {
    const kinds: Kinds
    var tokens: seq<string>
    var pos: nat

    constructor (kinds: Kinds, code: string)
      ensures this.kinds == kinds && tokens == Tokenize(code) && pos == 0
    {
      this.kinds, tokens, pos := kinds, Tokenize(code), 0;
    }

    method ParseExpression() returns (r: Result<Node>)
      requires pos <= |tokens|
      modifies this`pos
      ensures match ParseAt(kinds, tokens, old(pos))
              case Ok((n, p)) => r == Ok(n) && pos == p
              case Err(e) => r == Err(e)
      decreases |tokens| - pos, 2
    {
      if pos >= |tokens| { return Err(UnexpectedEnd); }
      var token := tokens[pos];
      if token == "(" {
        r := ParseList();
        return;
      }
      pos := pos + 1;
      r := Ok(NodeOfWord(token));
    }

    method ParseList() returns (r: Result<Node>)
      requires pos < |tokens| && tokens[pos] == "("
      modifies this`pos
      ensures match ParseListAt(kinds, tokens, old(pos))
              case Ok((n, p)) => r == Ok(n) && pos == p
              case Err(e) => r == Err(e)
      decreases |tokens| - pos, 1
    {
      pos := pos + 1;
      if pos >= |tokens| { return Err(UnexpectedEnd); }
      var op := tokens[pos];
      pos := pos + 1;
      var children;
      if IsTensorHead(op) {
        children := ParseNames();
      } else {
        children := ParseItems();
      }
      if children.Err? { return Err(children.error); }
      if pos >= |tokens| { return Err(MissingClose); }
      pos := pos + 1;
      match kinds(op) {
        case Some(kind) => r := Ok(OpNode(kind, children.value));
        case None => r := Err(UnknownOperation(op));
      }
    }

    method ParseNames() returns (r: Result<seq<Node>>)
      requires 2 <= pos <= |tokens|
      modifies this`pos
      ensures match ParseNamesAt(kinds, tokens, old(pos))
              case Ok((ns, p)) => r == Ok(ns) && pos == p
              case Err(e) => r == Err(e)
      decreases |tokens| - pos + 1, 3
    {
      var names: seq<string> := [];
      ghost var start := pos;
      while pos < |tokens| && tokens[pos] != ")"
        invariant start <= pos <= |tokens|
        invariant CollectNames(tokens, pos, names) == CollectNames(tokens, start, [])
        decreases |tokens| - pos
      {
        if tokens[pos] == "," {
          pos := pos + 1;
        } else {
          names := names + [tokens[pos]];
          pos := pos + 1;
          if !(pos < |tokens| && tokens[pos] == ",") { break; }
        }
      }
      assert CollectNames(tokens, start, []) == (names, pos);
      if |names| > 1 { return Ok(VarNodes(names)); }
      pos := pos - 1;
      var only := ParseExpression();
      r := if only.Ok? then Ok([only.value]) else Err(only.error);
    }

    method ParseItems() returns (r: Result<seq<Node>>)
      requires pos <= |tokens|
      modifies this`pos
      ensures match ParseItemsAt(kinds, tokens, old(pos))
              case Ok((ns, p)) => r == Ok(ns) && pos == p
              case Err(e) => r == Err(e)
      decreases |tokens| - pos, 3
    {
      var children: seq<Node> := [];
      ghost var all := ParseItemsAt(kinds, tokens, pos);
      assert all.Ok? ==> [] + all.value.0 == all.value.0;
      while pos < |tokens| && tokens[pos] != ")"
        invariant old(pos) <= pos <= |tokens|
        invariant match ParseItemsAt(kinds, tokens, pos)
                  case Ok((ns, p)) => all == Ok((children + ns, p))
                  case Err(e) => all == Err(e)
        decreases |tokens| - pos
      {
        ghost var rest := ParseItemsAt(kinds, tokens, pos);
        var item := ParseExpression();
        if item.Err? { return Err(item.error); }
        assert rest.Ok? ==> children + rest.value.0 == children + [item.value] + rest.value.0[1..];
        children := children + [item.value];
      }
      assert children + [] == children;
      r := Ok(children);
    }
  }

  // ---------------------------------------------------------------------------------------------
  // Parsing what was printed

  /** The node a tree stands for; none if the parser does not know one of its operators. */
  function NodeOf(kinds: Kinds, t: Tree): Option<Node>
    decreases t, 1
  {
    match t
    case Word(w) => Some(NodeOfWord(w))
    case Names(h, ps) =>
      (match kinds(h)
       case Some(kind) => Some(OpNode(kind, NameNodes(ps)))
       case None => None)
    case Form(op, items) =>
      (match (kinds(op), NodesOf(kinds, items))
       case (Some(kind), Some(ns)) => Some(OpNode(kind, ns))
       case (_, _) => None)
  }

  function NameNodes(ps: seq<string>): seq<Node> {
    if |ps| == 1 then [NodeOfWord(ps[0])] else VarNodes(ps)
  }

  function NodesOf(kinds: Kinds, ts: seq<Tree>): Option<seq<Node>>
    decreases ts, 0
  {
    if ts == [] then Some([])
    else
      match (NodeOf(kinds, ts[0]), NodesOf(kinds, ts[1..]))
      case (Some(n), Some(ns)) => Some([n] + ns)
      case (_, _) => None
  }

  /** The tokens found at a position. */
  predicate At(ts: seq<string>, pos: nat, toks: seq<string>) {
    pos + |toks| <= |ts| && ts[pos..pos + |toks|] == toks
  }

  lemma AtParts(ts: seq<string>, pos: nat, a: seq<string>, b: seq<string>)
    requires At(ts, pos, a + b)
    ensures At(ts, pos, a) && At(ts, pos + |a|, b)
  {
    assert ts[pos..pos + |a + b|][..|a|] == a && ts[pos..pos + |a + b|][|a|..] == b;
  }

  ghost predicate Reads<T>(r: Result<(T, nat)>, n: Option<T>, end: nat) {
    match n
    case Some(x) => r == Ok((x, end))
    case None => r.Err?
  }

  /** What follows an opening parenthesis and an operator. */
  lemma OpensList(ts: seq<string>, pos: nat, op: string, inside: seq<string>)
    requires At(ts, pos, ["(", op] + inside + [")"])
    ensures pos + 1 < |ts| && ts[pos] == "(" && ts[pos + 1] == op && At(ts, pos + 2, inside + [")"])
  {
    assert ["(", op] + inside + [")"] == ["(", op] + (inside + [")"]);
    AtParts(ts, pos, ["(", op], inside + [")"]);
    assert ts[pos] == ts[pos..pos + 2][0] && ts[pos + 1] == ts[pos..pos + 2][1];
  }

  lemma WordIsNoPunct(w: string)
    requires IsWord(w)
    ensures w != "(" && w != ")" && w != ","
  {
    assert w[0] in w;
  }

  lemma WordParsed(kinds: Kinds, w: string, ts: seq<string>, pos: nat)
    requires IsWord(w) && At(ts, pos, [w])
    ensures pos <= |ts| && ParseAt(kinds, ts, pos) == Ok((NodeOfWord(w), pos + 1))
  {
    assert ts[pos] == ts[pos..pos + 1][0];
    WordIsNoPunct(w);
  }

  lemma TensorParsed(kinds: Kinds, h: string, ps: seq<string>, ts: seq<string>, pos: nat)
    requires WellSpelled(Names(h, ps)) && At(ts, pos, TreeTokens(Names(h, ps)))
    ensures pos <= |ts| && Reads(ParseAt(kinds, ts, pos), NodeOf(kinds, Names(h, ps)), pos + |TreeTokens(Names(h, ps))|)
  {
    OpensList(ts, pos, h, CommaTokens(ps));
    NamesParsed(kinds, ts, pos + 2, ps);
  }

  /** An operator's operands have been read; its closing parenthesis follows. */
  lemma FormParsed(kinds: Kinds, op: string, items: seq<Tree>, ts: seq<string>, pos: nat)
    requires !IsTensorHead(op) && pos + 2 <= |ts| && ts[pos] == "(" && ts[pos + 1] == op
    requires Reads(ParseItemsAt(kinds, ts, pos + 2), NodesOf(kinds, items), pos + 2 + |ForestTokens(items)|)
    requires pos + 2 + |ForestTokens(items)| < |ts|
    ensures Reads(ParseAt(kinds, ts, pos), NodeOf(kinds, Form(op, items)), pos + |TreeTokens(Form(op, items))|)
  {
  }

  /** The printed tree is read back as its node, or refused where it has an unknown operator. */
  lemma {:induction false} ParsePrinted(kinds: Kinds, t: Tree, ts: seq<string>, pos: nat)
    requires WellSpelled(t) && At(ts, pos, TreeTokens(t))
    ensures pos <= |ts| && Reads(ParseAt(kinds, ts, pos), NodeOf(kinds, t), pos + |TreeTokens(t)|)
    decreases t, 1
  {
    match t
    case Word(w) => WordParsed(kinds, w, ts, pos);
    case Names(h, ps) => TensorParsed(kinds, h, ps, ts, pos);
    case Form(op, items) =>
      OpensList(ts, pos, op, ForestTokens(items));
      ItemsParsed(kinds, items, ts, pos + 2);
      FormParsed(kinds, op, items, ts, pos);
  }

  lemma {:induction false} ItemsParsed(kinds: Kinds, items: seq<Tree>, ts: seq<string>, pos: nat)
    requires (forall k :: 0 <= k < |items| ==> WellSpelled(items[k])) && At(ts, pos, ForestTokens(items) + [")"])
    ensures pos <= |ts| && Reads(ParseItemsAt(kinds, ts, pos), NodesOf(kinds, items), pos + |ForestTokens(items)|)
    ensures pos + |ForestTokens(items)| < |ts|
    decreases items, 0
  {
    AtParts(ts, pos, ForestTokens(items), [")"]);
    if items == [] {
      assert ts[pos] == ts[pos..pos + 1][0];
    } else {
      ItemsBegin(items, ts, pos);
      ParsePrinted(kinds, items[0], ts, pos);
      ItemsParsed(kinds, items[1..], ts, pos + |TreeTokens(items[0])|);
    }
  }

  lemma ItemsBegin(items: seq<Tree>, ts: seq<string>, pos: nat)
    requires items != [] && WellSpelled(items[0]) && At(ts, pos, ForestTokens(items) + [")"])
    ensures pos < |ts| && ts[pos] != ")" && At(ts, pos, TreeTokens(items[0]))
    ensures At(ts, pos + |TreeTokens(items[0])|, ForestTokens(items[1..]) + [")"])
    ensures |ForestTokens(items)| == |TreeTokens(items[0])| + |ForestTokens(items[1..])|
  {
    var first, rest := TreeTokens(items[0]), ForestTokens(items[1..]) + [")"];
    assert ForestTokens(items) + [")"] == first + rest;
    AtParts(ts, pos, first, rest);
    FirstToken(items[0]);
    assert ts[pos] == ts[pos..pos + |first|][0];
  }

  lemma FirstToken(t: Tree)
    requires WellSpelled(t)
    ensures TreeTokens(t) != [] && TreeTokens(t)[0] != ")"
  {
    if t.Word? { WordIsNoPunct(t.w); }
  }

  /** From any name on, the collected names are those that follow. */
  lemma {:induction false} NamesCollected(ts: seq<string>, p: nat, parts: seq<string>, before: seq<string>)
    requires parts != [] && (forall k :: 0 <= k < |parts| ==> IsWord(parts[k])) && At(ts, p, CommaTokens(parts) + [")"])
    ensures p <= |ts| && CollectNames(ts, p, before) == (before + parts, p + |CommaTokens(parts)|)
    decreases |parts|
  {
    var toks := CommaTokens(parts) + [")"];
    assert ts[p] == ts[p..p + |toks|][0] && ts[p + 1] == ts[p..p + |toks|][1];
    assert parts[0][0] in parts[0];
    if |parts| == 1 {
      assert before + parts == before + [parts[0]];
    } else {
      var rest := CommaTokens(parts[1..]) + [")"];
      assert toks == [parts[0], ","] + rest;
      AtParts(ts, p, [parts[0], ","], rest);
      NamesCollected(ts, p + 2, parts[1..], before + [parts[0]]);
      assert before + [parts[0]] + parts[1..] == before + parts;
      assert CollectNames(ts, p, before) == CollectNames(ts, p + 1, before + [parts[0]]) ==
        CollectNames(ts, p + 2, before + [parts[0]]);
    }
  }

  lemma NamesParsed(kinds: Kinds, ts: seq<string>, p: nat, parts: seq<string>)
    requires p >= 2 && parts != [] && (forall k :: 0 <= k < |parts| ==> IsWord(parts[k])) &&
      At(ts, p, CommaTokens(parts) + [")"])
    ensures p <= |ts| && ParseNamesAt(kinds, ts, p) == Ok((NameNodes(parts), p + |CommaTokens(parts)|))
    ensures p + |CommaTokens(parts)| < |ts|
  {
    NamesCollected(ts, p, parts, []);
    assert [] + parts == parts;
    if |parts| == 1 {
      assert ts[p] == ts[p..p + 2][0];
      assert parts[0][0] in parts[0];
    }
  }

  // ---------------------------------------------------------------------------------------------
  // The printer

  /** `_get_clean_name`: every `v_` is taken out, from the left. */
  function CleanTile(n: Name): Name {
    if |n| < 2 then n
    else if n[..2] == "v_" then CleanTile(n[2..])
    else [n[0]] + CleanTile(n[1..])
  }

  function AtomTree(a: Atom): Tree {
    match a
    case Tile(n) => Form("tile", [Word(CleanTile(n))])
    case TileOffset(n, k) => Form("shifted_tile", [Word(CleanTile(n)), Word(IntText(k))])
    case ConstTile(at, len) => Form("const_tile", [Word(IntText(at)), Word(IntText(len))])
    case FullTile => Word("fulltile")
    case Elem(n) => Form("elem", [Word(CleanTile(n))])
  }

  function IndexTree(ix: Index): Tree {
    Form("index", seq(|ix|, d requires 0 <= d < |ix| => AtomTree(ix[d])))
  }

  /** A tensor is printed under its role. */
  function TensorTree(role: Name -> string, t: Name): Tree { Names(role(t), SplitNames(t)) }

  /** A tensor's text carries its name as it is, joined or not. */
  lemma TensorText(role: Name -> string, t: Name)
    ensures Inline(TensorTree(role, t)) == "(" + role(t) + " " + t + ")"
  {
    JoinSplit(t);
  }

  function HeadOf(op: Oper, n: nat): string {
    match op
    case Add => "+"
    case Sub => "-"
    case Mul => "*"
    case Div => "/"
    case Max => "max"
    case Min => "min"
    case Matmul => "@"
    case Exp => "exp"
    case Sqr => "sqr"
    case Sqrt => "sqrt"
    case Sigmoid => "sigmoid"
    case Cast(_) => "cast"
    case ReduceSum(_) => "rsum"
    case ReduceMax(_) => "rmax"
    case ReduceMin(_) => "rmin"
    case Broadcast(_) => "bcast"
    case Concat(_) => "concat"
    case Permute3(_, _, _) => "permute3"
    case Squeeze(_) => "squeeze"
    case Unsqueeze(_) => "unsqueeze"
    case GenericBinary(name) => name
    case GenericCall(name) => if name == "transpose" && n >= 4 then "permute" + NatText(n - 1) else name
  }

  function Before(op: Oper): seq<Tree> {
    match op
    case Cast(dtype) => [Word(dtype)]
    case _ => []
  }

  function After(op: Oper): seq<Tree> {
    match op
    case ReduceSum(a) => [Word(IntText(a))]
    case ReduceMax(a) => [Word(IntText(a))]
    case ReduceMin(a) => [Word(IntText(a))]
    case Broadcast(a) => [Word(IntText(a))]
    case Concat(a) => [Word(IntText(a))]
    case Squeeze(a) => [Word(IntText(a))]
    case Unsqueeze(a) => [Word(IntText(a))]
    case Permute3(a, b, c) => [Word(IntText(a)), Word(IntText(b)), Word(IntText(c))]
    case _ => []
  }

  function ExprTree(role: Name -> string, e: Expr): Tree
    decreases e, 1
  {
    match e
    case Load(t, ix) => Form("load", [TensorTree(role, t), IndexTree(ix)])
    case Const(text) => Word(text)
    case Arange(x) => Form("arange", [Word(x)])
    case Op(op, args) => Form(HeadOf(op, |args|), Before(op) + ExprTrees(role, args) + After(op))
  }

  function ExprTrees(role: Name -> string, args: seq<Expr>): (r: seq<Tree>)
    ensures |r| == |args|
    decreases args, 0
  {
    if args == [] then [] else [ExprTree(role, args[0])] + ExprTrees(role, args[1..])
  }

  function BoundTree(b: Bound): Tree {
    match b
    case Num(n) => Word(IntText(n))
    case VarRef(x) => Word(x)
  }

  /** The trees of a statement: one, except for a block. */
  function StmtTrees(role: Name -> string, s: Stmt): seq<Tree>
    decreases s, 1
  {
    match s
    case Store(t, v, ix) => [Form("store", [TensorTree(role, t), ExprTree(role, v), IndexTree(ix)])]
    case Loop(lo, hi, tile, x, b) =>
      [Form("loop", [BoundTree(lo), BoundTree(hi), Word(tile), Word(x)] + StmtTrees(role, b))]
    case Seq(l, r) => [Form("seq", StmtTrees(role, l) + StmtTrees(role, r))]
    case Block(ss) => AllTrees(role, ss)
  }

  function AllTrees(role: Name -> string, ss: seq<Stmt>): seq<Tree>
    decreases ss, 0
  {
    if ss == [] then [] else StmtTrees(role, ss[0]) + AllTrees(role, ss[1..])
  }

  function Indent(level: int): string {
    if level <= 0 then "" else "  " + Indent(level - 1)
  }

  function Newline(level: int): string { if level >= 0 then "\n" else "" }

  function ExprText(role: Name -> string, e: Expr, level: int): string { Indent(level) + Inline(ExprTree(role, e)) }

  /** A statement's last line. */
  function Closed(level: int, body: string): string {
    Indent(level) + (body + Newline(level) + (Indent(level) + ")"))
  }

  function StoreBody(role: Name -> string, t: Name, v: Expr, ix: Index, level: int): string {
    (("(store" + " " + Inline(TensorTree(role, t))) + Newline(level) + ExprText(role, v, level + 1))
      + Newline(level) + (Indent(level + 1) + Inline(IndexTree(ix)))
  }

  function LoopHead(lo: Bound, hi: Bound, tile: string, x: Name): string {
    "(loop" + " " + InlineAll([BoundTree(lo), BoundTree(hi), Word(tile), Word(x)])
  }

  /** `ast_to_lisp` of a statement; below level 0 everything stays on one line. */
  function StmtText(role: Name -> string, s: Stmt, level: int): string
    decreases s, 1
  {
    match s
    case Store(t, v, ix) => Closed(level, StoreBody(role, t, v, ix, level))
    case Loop(lo, hi, tile, x, b) =>
      Closed(level, LoopHead(lo, hi, tile, x) + Newline(level) + StmtText(role, b, level + 1))
    case Seq(l, r) =>
      if level < 0 then SeqBody(StmtText(role, l, -1), StmtText(role, r, -1), ' ') + ")"
      else Closed(level, SeqBody(StmtText(role, l, level + 1), StmtText(role, r, level), '\n'))
    case Block(ss) => BlockText(role, ss, level)
  }

  function BlockText(role: Name -> string, ss: seq<Stmt>, level: int): string
    decreases ss, 0
  {
    if ss == [] then ""
    else if |ss| == 1 then StmtText(role, ss[0], level)
    else StmtText(role, ss[0], level) + "\n" + BlockText(role, ss[1..], level)
  }

  /** Names and constants that are words. */
  predicate SpelledForest(ts: seq<Tree>) { forall k :: 0 <= k < |ts| ==> WellSpelled(ts[k]) }

  lemma {:induction false} ForestAppend(a: seq<Tree>, b: seq<Tree>)
    ensures ForestTokens(a + b) == ForestTokens(a) + ForestTokens(b)
  {
    if a == [] {
      assert a + b == b;
    } else {
      assert (a + b)[1..] == a[1..] + b;
      ForestAppend(a[1..], b);
    }
  }

  lemma ForestOne(t: Tree)
    ensures ForestTokens([t]) == TreeTokens(t)
  {
    assert ForestTokens([t][1..]) == [];
  }

  /** A text with known tokens and no comment. */
  ghost predicate Says(text: string, toks: seq<string>) { Tokens(text) == toks && ';' !in text }

  lemma {:induction false} IndentSays(level: int, text: string, toks: seq<string>)
    requires Says(text, toks)
    ensures Says(Indent(level) + text, toks)
    decreases if level <= 0 then 0 else level
  {
    if level <= 0 {
      assert Indent(level) + text == text;
    } else {
      IndentSays(level - 1, text, toks);
      var t := Indent(level - 1) + text;
      assert Indent(level) + text == "" + [' '] + ("" + [' '] + t);
      AtSpace("", ' ', "" + [' '] + t);
      AtSpace("", ' ', t);
    }
  }

  /** Two texts with something between them that ends a word. */
  lemma JoinSays(a: string, ta: seq<string>, gap: char, b: string, tb: seq<string>)
    requires Says(a, ta) && Says(b, tb) && (gap == ' ' || gap == '\n')
    ensures Says(a + [gap] + b, ta + tb)
  {
    AtSpace(a, gap, b);
  }

  /** A closing parenthesis needs no gap before it, an opening one none after it or before it. */
  lemma CloseSays(a: string, ta: seq<string>)
    requires Says(a, ta)
    ensures Says(a + ")", ta + [")"])
  {
    AtPunct(a, ')', "");
    assert a + [')'] + "" == a + ")" && Tokens("") == [];
  }

  /** A text that can follow a word without a gap. */
  predicate Loose(b: string) { b == "" || b[0] == '(' || Sexps.IsSpace(b[0]) }

  lemma LooseSays(a: string, ta: seq<string>, b: string, tb: seq<string>)
    requires Says(a, ta) && Says(b, tb) && Loose(b)
    ensures Says(a + b, ta + tb)
  {
    if b == "" {
      assert a + b == a && Tokens("") == [];
    } else {
      var c, rest := b[0], b[1..];
      assert "" + [c] + rest == b && a + [c] + rest == a + b && Tokens("") == [];
      if c == '(' {
        AtPunct("", c, rest);
        AtPunct(a, c, rest);
      } else {
        AtSpace("", c, rest);
        AtSpace(a, c, rest);
      }
    }
  }

  predicate ShutTight(a: string) { a != "" && a[|a| - 1] == ')' }

  lemma ShutSays(a: string, ta: seq<string>, b: string, tb: seq<string>)
    requires Says(a, ta) && Says(b, tb) && ShutTight(a)
    ensures Says(a + b, ta + tb)
  {
    var front := a[..|a| - 1];
    assert front + [')'] + "" == a && front + [')'] + b == a + b && Tokens("") == [];
    AtPunct(front, ')', "");
    AtPunct(front, ')', b);
  }

  /** A line break, or nothing where nothing is needed. */
  lemma LineSays(level: int, a: string, ta: seq<string>, b: string, tb: seq<string>)
    requires Says(a, ta) && Says(b, tb) && (level < 0 ==> Loose(b) || ShutTight(a))
    ensures Says(a + Newline(level) + b, ta + tb)
  {
    if level >= 0 {
      JoinSays(a, ta, '\n', b, tb);
      assert a + ['\n'] + b == a + Newline(level) + b;
    } else {
      assert a + Newline(level) + b == a + b;
      if Loose(b) { LooseSays(a, ta, b, tb); } else { ShutSays(a, ta, b, tb); }
    }
  }

  lemma OpenSays(op: string)
    requires IsWord(op)
    ensures Says("(" + op, ["(", op])
  {
    AtPunct("", '(', op);
    assert "" + ['('] + op == "(" + op && Tokens("") == [];
    WordTokens(op);
  }

  lemma ClosedSays(level: int, body: string, toks: seq<string>)
    requires Says(body, toks)
    ensures Says(Closed(level, body), toks + [")"])
  {
    CloseSays("", []);
    assert "" + ")" == ")" && [] + [")"] == [")"] && Tokens("") == [];
    IndentSays(level, ")", [")"]);
    if level < 0 {
      CloseSays(body, toks);
      assert body + Newline(level) + (Indent(level) + ")") == body + ")";
    } else {
      LineSays(level, body, toks, Indent(level) + ")", [")"]);
    }
    IndentSays(level, body + Newline(level) + (Indent(level) + ")"), toks + [")"]);
  }

  lemma {:induction false} IndentStarts(level: int)
    ensures Indent(level) == "" || Indent(level)[0] == ' '
  {
    if level > 0 { assert Indent(level)[0] == "  "[0]; }
  }

  lemma ClosedLoose(level: int, body: string)
    requires body != "" && body[0] == '('
    ensures Loose(Closed(level, body)) && Closed(level, body) != ""
  {
    IndentStarts(level);
  }

  lemma {:induction false} StmtLoose(role: Name -> string, s: Stmt, level: int)
    ensures Loose(StmtText(role, s, level))
    decreases s, 1
  {
    match s
    case Store(t, v, ix) => ClosedLoose(level, StoreBody(role, t, v, ix, level));
    case Loop(lo, hi, tile, x, b) =>
      ClosedLoose(level, LoopHead(lo, hi, tile, x) + Newline(level) + StmtText(role, b, level + 1));
    case Seq(l, r) =>
      if level >= 0 {
        ClosedLoose(level, SeqBody(StmtText(role, l, level + 1), StmtText(role, r, level), '\n'));
      }
    case Block(ss) => BlockLoose(role, ss, level);
  }

  lemma {:induction false} BlockLoose(role: Name -> string, ss: seq<Stmt>, level: int)
    ensures Loose(BlockText(role, ss, level))
    decreases ss, 0
  {
    if ss != [] { StmtLoose(role, ss[0], level); }
  }

  lemma SpelledAppend(a: seq<Tree>, b: seq<Tree>)
    requires SpelledForest(a + b)
    ensures SpelledForest(a) && SpelledForest(b)
  {
    forall k | 0 <= k < |a| ensures WellSpelled(a[k]) { assert (a + b)[k] == a[k]; }
    forall k | 0 <= k < |b| ensures WellSpelled(b[k]) { assert (a + b)[|a| + k] == b[k]; }
  }

  /** An opening parenthesis, an operator and what follows it. */
  lemma HeadSays(op: string, gap: char, inside: string, toks: seq<string>)
    requires IsWord(op) && Says(inside, toks) && (gap == ' ' || gap == '\n')
    ensures Says("(" + op + [gap] + inside, ["(", op] + toks)
  {
    OpenSays(op);
    JoinSays("(" + op, ["(", op], gap, inside, toks);
  }

  lemma StoreHeadSays(role: Name -> string, t: Name)
    requires WellSpelled(TensorTree(role, t))
    ensures var head := "(store" + " " + Inline(TensorTree(role, t));
            Says(head, ["(", "store"] + TreeTokens(TensorTree(role, t))) && ShutTight(head)
  {
    var tt := TensorTree(role, t);
    InlineTokens(tt);
    HeadSays("store", ' ', Inline(tt), TreeTokens(tt));
    assert "(" + "store" + [' '] + Inline(tt) == "(store" + " " + Inline(tt);
    assert Inline(tt)[|Inline(tt)| - 1] == ')';
  }

  lemma IndexLineSays(ix: Index, level: int)
    requires WellSpelled(IndexTree(ix))
    ensures Says(Indent(level + 1) + Inline(IndexTree(ix)), TreeTokens(IndexTree(ix))) &&
      Loose(Indent(level + 1) + Inline(IndexTree(ix)))
  {
    InlineTokens(IndexTree(ix));
    IndentSays(level + 1, Inline(IndexTree(ix)), TreeTokens(IndexTree(ix)));
    IndentStarts(level + 1);
  }

  lemma StoreSays(role: Name -> string, t: Name, v: Expr, ix: Index, level: int)
    requires WellSpelled(TensorTree(role, t)) && WellSpelled(ExprTree(role, v)) && WellSpelled(IndexTree(ix))
    ensures Says(StoreBody(role, t, v, ix, level),
      ["(", "store"] + TreeTokens(TensorTree(role, t)) + TreeTokens(ExprTree(role, v)) + TreeTokens(IndexTree(ix)))
  {
    var tv, ti := TreeTokens(ExprTree(role, v)), TreeTokens(IndexTree(ix));
    var head, thead := "(store" + " " + Inline(TensorTree(role, t)), ["(", "store"] + TreeTokens(TensorTree(role, t));
    StoreHeadSays(role, t);
    InlineTokens(ExprTree(role, v));
    IndentSays(level + 1, Inline(ExprTree(role, v)), tv);
    LineSays(level, head, thead, ExprText(role, v, level + 1), tv);
    IndexLineSays(ix, level);
    LineSays(level, head + Newline(level) + ExprText(role, v, level + 1), thead + tv,
      Indent(level + 1) + Inline(IndexTree(ix)), ti);
  }

  lemma LoopHeadSays(lo: Bound, hi: Bound, tile: string, x: Name)
    requires SpelledForest([BoundTree(lo), BoundTree(hi), Word(tile), Word(x)])
    ensures Says(LoopHead(lo, hi, tile, x),
      ["(", "loop"] + ForestTokens([BoundTree(lo), BoundTree(hi), Word(tile), Word(x)]))
  {
    var items := [BoundTree(lo), BoundTree(hi), Word(tile), Word(x)];
    InlineAllTokens(items);
    OpenSays("loop");
    JoinSays("(loop", ["(", "loop"], ' ', InlineAll(items), ForestTokens(items));
    assert "(loop" + [' '] + InlineAll(items) == LoopHead(lo, hi, tile, x);
  }

  lemma StoreStatementSays(role: Name -> string, t: Name, v: Expr, ix: Index, level: int)
    requires WellSpelled(Form("store", [TensorTree(role, t), ExprTree(role, v), IndexTree(ix)]))
    ensures Says(StmtText(role, Store(t, v, ix), level),
      TreeTokens(Form("store", [TensorTree(role, t), ExprTree(role, v), IndexTree(ix)])))
  {
    var items := [TensorTree(role, t), ExprTree(role, v), IndexTree(ix)];
    assert WellSpelled(items[0]) && WellSpelled(items[1]) && WellSpelled(items[2]);
    StoreSays(role, t, v, ix, level);
    StoreTokens(items);
    ClosedSays(level, StoreBody(role, t, v, ix, level),
      ["(", "store"] + TreeTokens(items[0]) + TreeTokens(items[1]) + TreeTokens(items[2]));
  }

  lemma StoreTokens(items: seq<Tree>)
    requires |items| == 3
    ensures TreeTokens(Form("store", items)) ==
      ["(", "store"] + TreeTokens(items[0]) + TreeTokens(items[1]) + TreeTokens(items[2]) + [")"]
  {
    ThreeTokens(items);
    Flatten(["(", "store"], TreeTokens(items[0]), TreeTokens(items[1]), TreeTokens(items[2]));
  }

  lemma Flatten(p: seq<string>, a: seq<string>, b: seq<string>, c: seq<string>)
    ensures p + (a + (b + c)) == p + a + b + c
  {
  }

  lemma LoopStatementSays(role: Name -> string, s: Stmt, level: int)
    requires s.Loop? && Says(StmtText(role, s.body, level + 1), ForestTokens(StmtTrees(role, s.body)))
    requires SpelledForest([BoundTree(s.start), BoundTree(s.end), Word(s.tile), Word(s.loopVar)])
    ensures Says(StmtText(role, s, level),
                 TreeTokens(Form("loop",
                   [BoundTree(s.start), BoundTree(s.end), Word(s.tile), Word(s.loopVar)] + StmtTrees(role, s.body))))
  {
    var head, below := [BoundTree(s.start), BoundTree(s.end), Word(s.tile), Word(s.loopVar)], StmtTrees(role, s.body);
    var first, inside := LoopHead(s.start, s.end, s.tile, s.loopVar), StmtText(role, s.body, level + 1);
    LoopHeadSays(s.start, s.end, s.tile, s.loopVar);
    StmtLoose(role, s.body, level + 1);
    LineSays(level, first, ["(", "loop"] + ForestTokens(head), inside, ForestTokens(below));
    FrameTokens("loop", head, below);
    ClosedSays(level, first + Newline(level) + inside, ["(", "loop"] + ForestTokens(head) + ForestTokens(below));
  }

  /** The printed text of a statement has the tokens of its trees, at any level. */
  lemma {:induction false} StmtSays(role: Name -> string, s: Stmt, level: int)
    requires SpelledForest(StmtTrees(role, s))
    ensures Says(StmtText(role, s, level), ForestTokens(StmtTrees(role, s)))
    decreases s, 1
  {
    if !s.Block? {
      assert WellSpelled(StmtTrees(role, s)[0]);
      ForestOne(StmtTrees(role, s)[0]);
    }
    match s
    case Store(t, v, ix) => StoreStatementSays(role, t, v, ix, level);
    case Loop(lo, hi, tile, x, b) =>
      SpelledAppend([BoundTree(lo), BoundTree(hi), Word(tile), Word(x)], StmtTrees(role, b));
      StmtSays(role, b, level + 1);
      LoopStatementSays(role, s, level);
    case Seq(l, r) =>
      SpelledAppend(StmtTrees(role, l), StmtTrees(role, r));
      StmtSays(role, l, if level < 0 then -1 else level + 1);
      StmtSays(role, r, if level < 0 then -1 else level);
      SeqSays(role, l, r, level);
    case Block(ss) => BlockSays(role, ss, level);
  }

  lemma ThreeTokens(items: seq<Tree>)
    requires |items| == 3
    ensures ForestTokens(items) == TreeTokens(items[0]) + (TreeTokens(items[1]) + TreeTokens(items[2]))
  {
    ForestOne(items[2]);
    assert items[1..][1..] == [items[2]];
  }

  lemma FrameTokens(op: string, a: seq<Tree>, b: seq<Tree>)
    ensures TreeTokens(Form(op, a + b)) == ["(", op] + ForestTokens(a) + ForestTokens(b) + [")"]
  {
    ForestAppend(a, b);
  }

  lemma SeqSays(role: Name -> string, l: Stmt, r: Stmt, level: int)
    requires Says(StmtText(role, l, if level < 0 then -1 else level + 1), ForestTokens(StmtTrees(role, l)))
    requires Says(StmtText(role, r, if level < 0 then -1 else level), ForestTokens(StmtTrees(role, r)))
    ensures Says(StmtText(role, Seq(l, r), level), TreeTokens(Form("seq", StmtTrees(role, l) + StmtTrees(role, r))))
  {
    var tl, tr := ForestTokens(StmtTrees(role, l)), ForestTokens(StmtTrees(role, r));
    var left, right := StmtText(role, l, if level < 0 then -1 else level + 1),
      StmtText(role, r, if level < 0 then -1 else level);
    FrameTokens("seq", StmtTrees(role, l), StmtTrees(role, r));
    var gap := if level < 0 then ' ' else '\n';
    SeqBodySays(left, tl, right, tr, gap);
    if level < 0 {
      CloseSays(SeqBody(left, right, gap), ["(", "seq"] + tl + tr);
    } else {
      ClosedSays(level, SeqBody(left, right, gap), ["(", "seq"] + tl + tr);
    }
    assert StmtText(role, Seq(l, r), level) ==
      if level < 0 then SeqBody(left, right, gap) + ")" else Closed(level, SeqBody(left, right, gap));
  }

  function SeqBody(left: string, right: string, gap: char): string {
    ("(seq" + [gap] + left) + [gap] + right
  }

  lemma SeqBodySays(left: string, tl: seq<string>, right: string, tr: seq<string>, gap: char)
    requires Says(left, tl) && Says(right, tr) && (gap == ' ' || gap == '\n')
    ensures Says(SeqBody(left, right, gap), ["(", "seq"] + tl + tr)
  {
    HeadSays("seq", gap, left, tl);
    assert "(" + "seq" + [gap] + left == "(seq" + [gap] + left;
    JoinSays("(seq" + [gap] + left, ["(", "seq"] + tl, gap, right, tr);
  }

  lemma {:induction false} BlockSays(role: Name -> string, ss: seq<Stmt>, level: int)
    requires SpelledForest(AllTrees(role, ss))
    ensures Says(BlockText(role, ss, level), ForestTokens(AllTrees(role, ss)))
    decreases ss, 0
  {
    if ss == [] {
      assert Tokens("") == [];
    } else {
      var here, rest := StmtTrees(role, ss[0]), AllTrees(role, ss[1..]);
      SpelledAppend(here, rest);
      ForestAppend(here, rest);
      StmtSays(role, ss[0], level);
      if |ss| == 1 {
        assert rest == [] && here + rest == here;
      } else {
        BlockSays(role, ss[1..], level);
        JoinSays(StmtText(role, ss[0], level), ForestTokens(here), '\n', BlockText(role, ss[1..], level),
          ForestTokens(rest));
        assert StmtText(role, ss[0], level) + ['\n'] + BlockText(role, ss[1..], level) == BlockText(role, ss, level);
      }
    }
  }

  /** What the parser makes of a text. */
  function ParseText(kinds: Kinds, code: string): Result<Node> {
    match ParseAt(kinds, Tokenize(code), 0)
    case Ok((n, _)) => Ok(n)
    case Err(e) => Err(e)
  }

  /** Printing a statement at any level and parsing the text gives the node of its tree; the parser
      refuses the text exactly when the tree has an operator it does not know. */
  lemma PrintedStatementParses(kinds: Kinds, role: Name -> string, s: Stmt, level: int)
    requires SpelledForest(StmtTrees(role, s)) && |StmtTrees(role, s)| == 1
    ensures match NodeOf(kinds, StmtTrees(role, s)[0])
            case Some(n) => ParseText(kinds, StmtText(role, s, level)) == Ok(n)
            case None => ParseText(kinds, StmtText(role, s, level)).Err?
  {
    var text, t := StmtText(role, s, level), StmtTrees(role, s)[0];
    StmtSays(role, s, level);
    assert StmtTrees(role, s) == [t];
    ForestOne(t);
    ReadBack(kinds, text, t);
  }

  lemma PrintedExpressionParses(kinds: Kinds, role: Name -> string, e: Expr, level: int)
    requires WellSpelled(ExprTree(role, e))
    ensures match NodeOf(kinds, ExprTree(role, e))
            case Some(n) => ParseText(kinds, ExprText(role, e, level)) == Ok(n)
            case None => ParseText(kinds, ExprText(role, e, level)).Err?
  {
    InlineTokens(ExprTree(role, e));
    IndentSays(level, Inline(ExprTree(role, e)), TreeTokens(ExprTree(role, e)));
    ReadBack(kinds, ExprText(role, e, level), ExprTree(role, e));
  }

  lemma ReadBack(kinds: Kinds, text: string, t: Tree)
    requires WellSpelled(t) && Says(text, TreeTokens(t))
    ensures match NodeOf(kinds, t)
            case Some(n) => ParseText(kinds, text) == Ok(n)
            case None => ParseText(kinds, text).Err?
  {
    NoComments(text);
    var ts := Tokenize(text);
    assert ts[0..0 + |ts|] == ts;
    ParsePrinted(kinds, t, ts, 0);
  }

  /** `parse` with the parser's own operator table. */
  method ParseIr(code: string) returns (r: Result<Node>)
    ensures r == ParseText(KindOf, code)
  {
    var parser := new IRParser(KindOf, code);
    r := parser.ParseExpression();
  }

  // ---------------------------------------------------------------------------------------------
  // What the parser's own table reads, and what the node still tells

  predicate ReadableAtom(a: Atom) { !a.TileOffset? }

  predicate ReadableIndex(ix: Index) { forall d :: 0 <= d < |ix| ==> ReadableAtom(ix[d]) }

  /** Expressions without ranges and shifted tiles, on operators of the table. */
  predicate ReadableExpr(kinds: Kinds, e: Expr) {
    match e
    case Load(_, ix) => ReadableIndex(ix)
    case Const(_) => true
    case Arange(_) => false
    case Op(op, args) => kinds(HeadOf(op, |args|)).Some? && forall k :: 0 <= k < |args| ==> ReadableExpr(kinds, args[k])
  }

  /** Statements without loops on such expressions. */
  predicate ReadableStmt(kinds: Kinds, s: Stmt) {
    match s
    case Store(_, v, ix) => ReadableExpr(kinds, v) && ReadableIndex(ix)
    case Loop(_, _, _, _, _) => false
    case Seq(l, r) => ReadableStmt(kinds, l) && ReadableStmt(kinds, r)
    case Block(ss) => forall k :: 0 <= k < |ss| ==> ReadableStmt(kinds, ss[k])
  }

  /** A table that has every operator of the parser, and no entry for loops, ranges and shifted tiles. */
  ghost predicate OwnTable(kinds: Kinds) {
    && (forall k :: kinds(OpOf(k)).Some?)
    && kinds("shifted_tile").None? && kinds("arange").None? && kinds("loop").None?
  }

  lemma {:induction false} FindSound(ks: seq<Kind>, op: string)
    ensures Find(ks, op).Some? ==> OpOf(Find(ks, op).value) == op
  {
    if ks != [] && OpOf(ks[0]) != op { FindSound(ks[1..], op); }
  }

  lemma {:induction false} FindComplete(ks: seq<Kind>, k: Kind)
    requires k in ks
    ensures Find(ks, OpOf(k)).Some?
  {
    if OpOf(ks[0]) != OpOf(k) { FindComplete(ks[1..], k); }
  }

  lemma KindOfKnows(k: Kind)
    ensures KindOf(OpOf(k)).Some?
  {
    assert k in KINDS;
    FindComplete(KINDS, k);
  }

  /** Different operators have different kinds, but for the two permutations. */
  lemma KindOfTellsApart(op: string, other: string)
    requires KindOf(op).Some? && KindOf(op) == KindOf(other) && op != "permute4" && other != "permute4"
    ensures op == other
  {
    FindSound(KINDS, op);
    FindSound(KINDS, other);
  }

  lemma NoRange(k: Kind)
    ensures OpOf(k) != "arange"
  {
  }

  lemma NoLoop(k: Kind)
    ensures OpOf(k) != "loop"
  {
  }

  lemma NoShift(k: Kind)
    ensures OpOf(k) != "shifted_tile"
  {
  }

  lemma KindOfIsOwnTable()
    ensures OwnTable(KindOf)
  {
    forall k ensures KindOf(OpOf(k)).Some? { KindOfKnows(k); }
    Unknown();
  }

  lemma Unknown()
    ensures KindOf("shifted_tile").None? && KindOf("arange").None? && KindOf("loop").None?
  {
    FindSound(KINDS, "shifted_tile");
    FindSound(KINDS, "arange");
    FindSound(KINDS, "loop");
    if KindOf("shifted_tile").Some? { NoShift(KindOf("shifted_tile").value); }
    if KindOf("arange").Some? { NoRange(KindOf("arange").value); }
    if KindOf("loop").Some? { NoLoop(KindOf("loop").value); }
  }

  ghost predicate Roles(role: Name -> string) { forall t :: IsTensorHead(role(t)) }

  lemma {:induction false} NodesOfAll(kinds: Kinds, ts: seq<Tree>)
    ensures NodesOf(kinds, ts).Some? <==> forall k :: 0 <= k < |ts| ==> NodeOf(kinds, ts[k]).Some?
  {
    if ts != [] {
      NodesOfAll(kinds, ts[1..]);
      assert forall k :: 0 <= k < |ts| - 1 ==> ts[k + 1] == ts[1..][k];
      if NodesOf(kinds, ts).Some? {
        forall k | 0 <= k < |ts| ensures NodeOf(kinds, ts[k]).Some? { if k > 0 { assert ts[k] == ts[1..][k - 1]; } }
      }
    }
  }

  lemma FormOfWords(kinds: Kinds, op: string, ws: seq<Tree>)
    requires forall k :: 0 <= k < |ws| ==> ws[k].Word?
    ensures NodeOf(kinds, Form(op, ws)).Some? <==> kinds(op).Some?
  {
    NodesOfAll(kinds, ws);
  }

  lemma WordFormReadable(kinds: Kinds, k: Kind, w: string)
    requires OwnTable(kinds)
    ensures NodeOf(kinds, Form(OpOf(k), [Word(w)])).Some?
  {
    FormOfWords(kinds, OpOf(k), [Word(w)]);
  }

  lemma AtomReadable(kinds: Kinds, a: Atom)
    requires OwnTable(kinds)
    ensures NodeOf(kinds, AtomTree(a)).Some? <==> ReadableAtom(a)
  {
    match a
    case Tile(n) => WordFormReadable(kinds, TILE, CleanTile(n));
    case TileOffset(n, k) =>
    case ConstTile(at, len) => FormOfWords(kinds, OpOf(CONST_TILE), [Word(IntText(at)), Word(IntText(len))]);
    case FullTile =>
    case Elem(n) => WordFormReadable(kinds, ELEM, CleanTile(n));
  }

  lemma IndexReadable(kinds: Kinds, ix: Index)
    requires OwnTable(kinds)
    ensures NodeOf(kinds, IndexTree(ix)).Some? <==> ReadableIndex(ix)
  {
    var items := seq(|ix|, d requires 0 <= d < |ix| => AtomTree(ix[d]));
    assert kinds(OpOf(INDEX)).Some?;
    NodesOfAll(kinds, items);
    forall d | 0 <= d < |ix|
      ensures NodeOf(kinds, items[d]).Some? <==> ReadableAtom(ix[d])
    {
      AtomReadable(kinds, ix[d]);
    }
  }

  lemma TensorReadable(kinds: Kinds, role: Name -> string, t: Name)
    requires OwnTable(kinds) && Roles(role)
    ensures NodeOf(kinds, TensorTree(role, t)).Some?
  {
    assert kinds(OpOf(INPUT)).Some? && kinds(OpOf(OUTPUT)).Some? && kinds(OpOf(TENSOR)).Some?;
  }

  lemma {:induction false} ExprReadable(kinds: Kinds, role: Name -> string, e: Expr)
    requires OwnTable(kinds) && Roles(role)
    ensures NodeOf(kinds, ExprTree(role, e)).Some? <==> ReadableExpr(kinds, e)
    decreases e, 1
  {
    match e
    case Load(t, ix) =>
      assert kinds(OpOf(LOAD)).Some?;
      IndexReadable(kinds, ix);
      TensorReadable(kinds, role, t);
      NodesOfAll(kinds, [TensorTree(role, t), IndexTree(ix)]);
    case Const(_) =>
    case Arange(_) =>
    case Op(op, args) =>
      ExprsReadable(kinds, role, args);
      OperandsReadable(kinds, Before(op), ExprTrees(role, args), After(op));
  }

  lemma OperandsReadable(kinds: Kinds, before: seq<Tree>, args: seq<Tree>, after: seq<Tree>)
    requires (forall k :: 0 <= k < |before| ==> before[k].Word?) && forall k :: 0 <= k < |after| ==> after[k].Word?
    ensures NodesOf(kinds, before + args + after).Some? <==> NodesOf(kinds, args).Some?
  {
    var all := before + args + after;
    NodesOfAll(kinds, all);
    NodesOfAll(kinds, args);
    forall k | 0 <= k < |args| ensures args[k] == all[|before| + k] {}
    forall k | 0 <= k < |all|
      ensures all[k].Word? || (|before| <= k < |before| + |args| && all[k] == args[k - |before|]) {}
  }

  lemma {:induction false} ExprsReadable(kinds: Kinds, role: Name -> string, args: seq<Expr>)
    requires OwnTable(kinds) && Roles(role)
    ensures NodesOf(kinds, ExprTrees(role, args)).Some? <==>
      forall k :: 0 <= k < |args| ==> ReadableExpr(kinds, args[k])
    decreases args, 0
  {
    if args != [] {
      ExprReadable(kinds, role, args[0]);
      ExprsReadable(kinds, role, args[1..]);
      assert ExprTrees(role, args)[1..] == ExprTrees(role, args[1..]);
      assert forall k :: 0 <= k < |args| - 1 ==> args[k + 1] == args[1..][k];
      if forall k :: 0 <= k < |args[1..]| ==> ReadableExpr(kinds, args[1..][k]) {
        assert forall k :: 1 <= k < |args| ==> args[k] == args[1..][k - 1];
      }
    }
  }

  lemma NodesOfParts(kinds: Kinds, a: seq<Tree>, b: seq<Tree>)
    ensures NodesOf(kinds, a + b).Some? <==> NodesOf(kinds, a).Some? && NodesOf(kinds, b).Some?
  {
    NodesOfAll(kinds, a);
    NodesOfAll(kinds, b);
    NodesOfAll(kinds, a + b);
    forall k | 0 <= k < |a| ensures (a + b)[k] == a[k] {}
    forall k | 0 <= k < |b| ensures (a + b)[|a| + k] == b[k] {}
  }

  lemma StoreReadable(kinds: Kinds, role: Name -> string, t: Name, v: Expr, ix: Index)
    requires OwnTable(kinds) && Roles(role)
    ensures NodesOf(kinds, StmtTrees(role, Store(t, v, ix))).Some? <==> ReadableExpr(kinds, v) && ReadableIndex(ix)
  {
    assert kinds(OpOf(STORE)).Some?;
    ExprReadable(kinds, role, v);
    IndexReadable(kinds, ix);
    TensorReadable(kinds, role, t);
    ThreeReadable(kinds, OpOf(STORE), TensorTree(role, t), ExprTree(role, v), IndexTree(ix));
    assert StmtTrees(role, Store(t, v, ix)) ==
      [Form(OpOf(STORE), [TensorTree(role, t), ExprTree(role, v), IndexTree(ix)])];
  }

  lemma ThreeReadable(kinds: Kinds, op: string, a: Tree, b: Tree, c: Tree)
    requires kinds(op).Some?
    ensures NodesOf(kinds, [Form(op, [a, b, c])]).Some? <==>
      NodeOf(kinds, a).Some? && NodeOf(kinds, b).Some? && NodeOf(kinds, c).Some?
  {
    NodesOfParts(kinds, [a], [b]);
    NodesOfParts(kinds, [a] + [b], [c]);
    assert [a] + [b] + [c] == [a, b, c];
    NodesOfOne(kinds, a);
    NodesOfOne(kinds, b);
    NodesOfOne(kinds, c);
    NodesOfOne(kinds, Form(op, [a, b, c]));
  }

  lemma NodesOfOne(kinds: Kinds, t: Tree)
    ensures NodesOf(kinds, [t]).Some? <==> NodeOf(kinds, t).Some?
  {
    NodesOfAll(kinds, [t]);
  }

  lemma {:induction false} StmtReadable(kinds: Kinds, role: Name -> string, s: Stmt)
    requires OwnTable(kinds) && Roles(role)
    ensures NodesOf(kinds, StmtTrees(role, s)).Some? <==> ReadableStmt(kinds, s)
    decreases s, 1
  {
    match s
    case Store(t, v, ix) => StoreReadable(kinds, role, t, v, ix);
    case Loop(lo, hi, tile, x, b) =>
      NodesOfOne(kinds, Form("loop", [BoundTree(lo), BoundTree(hi), Word(tile), Word(x)] + StmtTrees(role, b)));
    case Seq(l, r) =>
      assert kinds(OpOf(SEQ)).Some?;
      StmtReadable(kinds, role, l);
      StmtReadable(kinds, role, r);
      NodesOfParts(kinds, StmtTrees(role, l), StmtTrees(role, r));
      NodesOfOne(kinds, Form("seq", StmtTrees(role, l) + StmtTrees(role, r)));
    case Block(ss) => StmtsReadable(kinds, role, ss);
  }

  lemma {:induction false} StmtsReadable(kinds: Kinds, role: Name -> string, ss: seq<Stmt>)
    requires OwnTable(kinds) && Roles(role)
    ensures NodesOf(kinds, AllTrees(role, ss)).Some? <==> forall k :: 0 <= k < |ss| ==> ReadableStmt(kinds, ss[k])
    decreases ss, 0
  {
    if ss != [] {
      StmtReadable(kinds, role, ss[0]);
      StmtsReadable(kinds, role, ss[1..]);
      NodesOfParts(kinds, StmtTrees(role, ss[0]), AllTrees(role, ss[1..]));
      assert forall k :: 1 <= k < |ss| ==> ss[k] == ss[1..][k - 1];
      assert forall k :: 0 <= k < |ss| - 1 ==> ss[k + 1] == ss[1..][k];
    }
  }

  /** The parser reads a printed statement, at any level, exactly when it has no loop, no shifted tile and
      no range, and every operator is in the parser's table. */
  lemma OwnParserReadsIff(role: Name -> string, s: Stmt, level: int)
    requires Roles(role) && SpelledForest(StmtTrees(role, s)) && |StmtTrees(role, s)| == 1
    ensures ParseText(KindOf, StmtText(role, s, level)).Ok? <==> ReadableStmt(KindOf, s)
  {
    KindOfIsOwnTable();
    PrintedStatementParses(KindOf, role, s, level);
    StmtReadable(KindOf, role, s);
    NodesOfAll(KindOf, StmtTrees(role, s));
  }

  // The node determines the tree.

  /** Words written the usual way, and no operator that shares its kind with another. */
  ghost predicate Usual(kinds: Kinds, t: Tree) {
    match t
    case Word(w) => UsualWord(w)
    case Names(h, ps) => IsTensorHead(h) && ps != [] && UsualWord(ps[0]) && OwnKind(kinds, h)
    case Form(op, items) =>
      !IsTensorHead(op) && OwnKind(kinds, op) && forall k :: 0 <= k < |items| ==> Usual(kinds, items[k])
  }

  predicate UsualWord(w: string) { NodeOfWord(w).NumNode? ==> w == IntText(NodeOfWord(w).value) }

  ghost predicate OwnKind(kinds: Kinds, op: string) {
    forall other :: kinds(other).Some? && kinds(op).Some? && kinds(other) == kinds(op) ==> other == op
  }

  lemma WordDetermined(v: string, w: string)
    requires UsualWord(v) && UsualWord(w) && NodeOfWord(v) == NodeOfWord(w)
    ensures v == w
  {
  }

  lemma NamesDetermined(ps: seq<string>, qs: seq<string>)
    requires ps != [] && qs != [] && UsualWord(ps[0]) && UsualWord(qs[0]) && NameNodes(ps) == NameNodes(qs)
    ensures ps == qs
  {
    assert |NameNodes(ps)| == |ps| && |NameNodes(qs)| == |qs|;
    if |ps| == 1 {
      assert NameNodes(ps)[0] == NodeOfWord(ps[0]) && NameNodes(qs)[0] == NodeOfWord(qs[0]);
      WordDetermined(ps[0], qs[0]);
    } else {
      forall k | 0 <= k < |ps| ensures ps[k] == qs[k] { assert VarNodes(ps)[k] == VarNodes(qs)[k]; }
    }
  }

  /** Two trees with one node are the same tree: reading back loses nothing. */
  lemma {:induction false} NodeDeterminesTree(kinds: Kinds, t: Tree, u: Tree)
    requires Usual(kinds, t) && Usual(kinds, u) && NodeOf(kinds, t).Some? && NodeOf(kinds, t) == NodeOf(kinds, u)
    ensures t == u
    decreases t, 1
  {
    match t
    case Word(w) => WordDetermined(w, u.w);
    case Names(h, ps) => NamesDetermined(ps, u.parts);
    case Form(op, items) => NodesDetermineTrees(kinds, items, u.items);
  }

  lemma {:induction false} NodesDetermineTrees(kinds: Kinds, ts: seq<Tree>, us: seq<Tree>)
    requires (forall k :: 0 <= k < |ts| ==> Usual(kinds, ts[k])) && forall k :: 0 <= k < |us| ==> Usual(kinds, us[k])
    requires NodesOf(kinds, ts).Some? && NodesOf(kinds, ts) == NodesOf(kinds, us)
    ensures ts == us
    decreases ts, 0
  {
    if ts != [] && us != [] {
      var n, m := NodesOf(kinds, ts).value, NodesOf(kinds, us).value;
      assert n[0] == m[0] && n[1..] == m[1..];
      NodeDeterminesTree(kinds, ts[0], us[0]);
      NodesDetermineTrees(kinds, ts[1..], us[1..]);
      assert ts == [ts[0]] + ts[1..] && us == [us[0]] + us[1..];
    }
  }

  // The parser's own table.

  /** No permutation: the two of them have one kind. */
  predicate Plain(t: Tree) {
    match t
    case Word(w) => UsualWord(w)
    case Names(h, ps) => IsTensorHead(h) && ps != [] && UsualWord(ps[0])
    case Form(op, items) =>
      !IsTensorHead(op) && op != "permute3" && op != "permute4" && forall k :: 0 <= k < |items| ==> Plain(items[k])
  }

  lemma OwnKindUnlessPermuted(op: string)
    requires op != "permute3" && op != "permute4"
    ensures OwnKind(KindOf, op)
  {
    forall other | KindOf(other).Some? && KindOf(op).Some? && KindOf(other) == KindOf(op) ensures other == op {
      OnlyPermutations(op);
      if other != "permute4" { KindOfTellsApart(op, other); }
    }
  }

  lemma OnlyPermutations(op: string)
    requires op != "permute3" && op != "permute4"
    ensures KindOf(op) != Some(PERMUTE3)
  {
    FindSound(KINDS, op);
  }

  lemma HeadsOwnKind(h: string)
    requires IsTensorHead(h)
    ensures OwnKind(KindOf, h)
  {
    assert h[0] != "permute3"[0];
    OwnKindUnlessPermuted(h);
  }

  lemma {:induction false} PlainIsUsual(t: Tree)
    requires Plain(t)
    ensures Usual(KindOf, t)
  {
    match t
    case Word(_) =>
    case Names(h, _) => HeadsOwnKind(h);
    case Form(op, items) =>
      OwnKindUnlessPermuted(op);
      forall k | 0 <= k < |items| ensures Usual(KindOf, items[k]) { PlainIsUsual(items[k]); }
  }

  /** With the parser's own table the node determines the tree, if no operator is a permutation. */
  lemma OwnNodeDeterminesTree(t: Tree, u: Tree)
    requires Plain(t) && Plain(u) && NodeOf(KindOf, t).Some? && NodeOf(KindOf, t) == NodeOf(KindOf, u)
    ensures t == u
  {
    PlainIsUsual(t);
    PlainIsUsual(u);
    NodeDeterminesTree(KindOf, t, u);
  }
}
