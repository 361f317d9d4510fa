/** The multi-line formatter of backend/format.py.

    The formatter parses a text, then prints the tree again: loads and indices on one line, the
    name of a store beside its operator, consecutive atoms on a shared line, and every list on its
    own lines.

    Main results: the output has exactly the tokens of the tree at any indentation (FormatTokens),
    so parsing it gives the tree back (FormatRoundTrip) and formatting again changes nothing
    (FormatIdempotent). */
module Formatter {
  import opened Sexps

  function Indent(level: nat): string {
    if level == 0 then "" else "  " + Indent(level - 1)
  }

  /** `"\n".join(lines)`. */
  function JoinLines(lines: seq<string>): string {
    if lines == [] then ""
    else if |lines| == 1 then lines[0]
    else lines[0] + "\n" + JoinLines(lines[1..])
  }

  function Open(level: nat, op: string): string {
    Indent(level) + "(" + op
  }

  function Header(level: nat, op: string, lead: seq<Sexp>): string {
    if lead == [] then Open(level, op) else Open(level, op) + " " + StringifyAll(lead)
  }

  function Framed(header: string, body: seq<string>, level: nat): string {
    JoinLines([header] + body + [Indent(level) + ")"])
  }

  /** Trees whose formatted lists start with an atom (a list in head position would be shown in
      Python's own list notation). */
  predicate Printable(e: Sexp) {
    match e
    case Sym(_) => true
    case List(es) =>
      es == [] ||
      (&& es[0].Sym?
       && (es[0].text == "load" || es[0].text == "index"
           || if es[0].text == "store" && |es| > 1 then forall x :: x in es[2..] ==> x in es && Printable(x)
              else forall x :: x in es[1..] ==> x in es && Printable(x)))
  }

  /** How many arguments stay on the header line. */
  function Leading(args: seq<Sexp>): (n: nat)
    ensures n <= |args|
    ensures forall k :: 0 <= k < n ==> args[k].Sym?
    ensures n < |args| ==> args[n].List?
  {
    if args == [] || args[0].List? then 0 else 1 + Leading(args[1..])
  }

  function FormatTree(e: Sexp, level: nat): string
    requires Printable(e)
    decreases e, 2
  {
    var indent := Indent(level);
    match e
    case Sym(t) => indent + t
    case List(es) =>
      if es == [] then indent + "()"
      else if es[0].text == "load" || es[0].text == "index" then indent + Stringify(e)
      else if es[0].text == "store" && |es| > 1 then
        var header := Open(level, es[0].text) + " " + Stringify(es[1]);
        if |es| == 2 then header + ")" else Framed(header, EachLine(es[2..], level + 1), level)
      else
        var args := es[1..];
        var n := Leading(args);
        var header := Header(level, es[0].text, args[..n]);
        if n == |args| then header + ")" else Framed(header, BodyLines(args[n..], [], level), level)
  }

  function EachLine(es: seq<Sexp>, level: nat): seq<string>
    requires forall x :: x in es ==> Printable(x)
    decreases es, 1
  {
    if es == [] then [] else [FormatTree(es[0], level)] + EachLine(es[1..], level)
  }

  function Flushed(pending: seq<Sexp>, level: nat): seq<string> {
    if pending == [] then [] else [Indent(level) + "  " + StringifyAll(pending)]
  }

  /** The lines after the header: consecutive atoms share a line, every list gets its own. */
  function BodyLines(args: seq<Sexp>, pending: seq<Sexp>, level: nat): seq<string>
    requires forall x :: x in args ==> Printable(x)
    decreases args, 1
  {
    if args == [] then Flushed(pending, level)
    else if args[0].List? then
      Flushed(pending, level) + [FormatTree(args[0], level + 1)] + BodyLines(args[1..], [], level)
    else BodyLines(args[1..], pending + [args[0]], level)
  }

  /** `format_lisp_with_rules`, where the parsed tree is printable. */
  function FormatLisp(code: string): Result<string>
    requires Parse(Tokens(code)).Ok? ==> Printable(Parse(Tokens(code)).value.0)
  {
    match Parse(Tokens(code))
    case Ok((e, _)) => Ok(FormatTree(e, 0))
    case Err(x) => Err(x)
  }

  // ---------------------------------------------------------------------------------------------

  lemma {:induction false} IndentTokens(level: nat, s: string)
    ensures Tokens(Indent(level) + s) == Tokens(s)
  {
    if level == 0 {
      assert Indent(level) + s == s;
    } else {
      IndentTokens(level - 1, s);
      var t := Indent(level - 1) + s;
      assert Indent(level) + s == "" + [' '] + ("" + [' '] + t);
      TokensAtSpace("", ' ', "" + [' '] + t);
      TokensAtSpace("", ' ', t);
    }
  }

  function TokensOfLines(lines: seq<string>): seq<string> {
    if lines == [] then [] else Tokens(lines[0]) + TokensOfLines(lines[1..])
  }

  lemma {:induction false} JoinLinesTokens(lines: seq<string>)
    ensures Tokens(JoinLines(lines)) == TokensOfLines(lines)
  {
    if |lines| > 1 {
      TokensAtSpace(lines[0], '\n', JoinLines(lines[1..]));
      JoinLinesTokens(lines[1..]);
    }
  }

  lemma {:induction false} LinesAppend(a: seq<string>, b: seq<string>)
    ensures TokensOfLines(a + b) == TokensOfLines(a) + TokensOfLines(b)
  {
    if a == [] {
      assert a + b == b;
    } else {
      assert (a + b)[1..] == a[1..] + b;
      LinesAppend(a[1..], b);
    }
  }

  lemma {:induction false} AllTokensAppend(a: seq<Sexp>, b: seq<Sexp>)
    ensures AllTokens(a + b) == AllTokens(a) + AllTokens(b)
  {
    if a == [] {
      assert a + b == b;
    } else {
      assert (a + b)[1..] == a[1..] + b;
      AllTokensAppend(a[1..], b);
    }
  }

  /** A header line and a closing line around body lines. */
  lemma FramedTokens(header: string, body: seq<string>, level: nat)
    ensures Tokens(Framed(header, body, level)) == Tokens(header) + TokensOfLines(body) + [")"]
  {
    var footer := Indent(level) + ")";
    JoinLinesTokens([header] + body + [footer]);
    LinesAppend([header] + body, [footer]);
    LinesAppend([header], body);
    assert TokensOfLines([header]) == Tokens(header) + TokensOfLines([header][1..]);
    assert TokensOfLines([footer]) == Tokens(footer) + TokensOfLines([footer][1..]);
    IndentTokens(level, ")");
    TokensAtParen("", ')', "");
    assert "" + [')'] + "" == ")" && Tokens("") == [];
  }

  lemma HeaderTokens(level: nat, op: string, more: string)
    requires CleanWord(op)
    ensures Tokens(Open(level, op)) == ["(", op]
    ensures Tokens(Open(level, op) + " " + more) == ["(", op] + Tokens(more)
  {
    CleanWordTokens(op);
    TokensAtParen("", '(', op);
    assert "" + ['('] + op == "(" + op && Tokens("") == [];
    IndentTokens(level, "(" + op);
    assert Indent(level) + ("(" + op) == Open(level, op);
    TokensAtSpace(Open(level, op), ' ', more);
  }

  lemma ClosedTokens(s: string)
    ensures Tokens(s + ")") == Tokens(s) + [")"]
  {
    TokensAtParen(s, ')', "");
    assert s + [')'] + "" == s + ")" && Tokens("") == [];
  }

  /** The formatter only chooses white space: its output has the tokens of the tree. */
  lemma {:induction false} FormatTokens(e: Sexp, level: nat)
    requires Clean(e) && Printable(e)
    ensures Tokens(FormatTree(e, level)) == TreeTokens(e)
    decreases e, 2
  {
    var indent := Indent(level);
    match e
    case Sym(t) =>
      IndentTokens(level, t);
      CleanWordTokens(t);
    case List(es) =>
      if es == [] {
        IndentTokens(level, "()");
        StringifyTokens(e);
        assert Stringify(e) == "()";
      } else if es[0].text == "load" || es[0].text == "index" {
        IndentTokens(level, Stringify(e));
        StringifyTokens(e);
      } else if es[0].text == "store" && |es| > 1 {
        StoreTokens(e, level);
      } else {
        PlainTokens(e, level);
      }
  }

  lemma ConsTokens(x: Sexp, es: seq<Sexp>)
    ensures AllTokens([x] + es) == TreeTokens(x) + AllTokens(es)
  {
    assert ([x] + es)[1..] == es;
  }

  lemma {:induction false} StoreTokens(e: Sexp, level: nat)
    requires Clean(e) && Printable(e) && e.List? && |e.items| > 1 && e.items[0] == Sym("store")
    ensures Tokens(FormatTree(e, level)) == TreeTokens(e)
    decreases e, 1
  {
    var es, first, rest := e.items, e.items[1], e.items[2..];
    var header := Open(level, "store") + " " + Stringify(first);
    HeaderTokens(level, "store", Stringify(first));
    StringifyTokens(first);
    StoreParts(es);
    assert Tokens(header) + AllTokens(rest) == ["("] + AllTokens(es);
    if |es| == 2 {
      ClosedTokens(header);
      assert FormatTree(e, level) == header + ")";
      assert AllTokens(rest) == [];
    } else {
      EachLineTokens(rest, level + 1);
      FramedTokens(header, EachLine(rest, level + 1), level);
      assert FormatTree(e, level) == Framed(header, EachLine(rest, level + 1), level);
    }
  }

  lemma StoreParts(es: seq<Sexp>)
    requires |es| > 1 && es[0] == Sym("store")
    ensures ["(", "store"] + TreeTokens(es[1]) + AllTokens(es[2..]) == ["("] + AllTokens(es)
  {
    assert es == [es[0]] + ([es[1]] + es[2..]);
    ConsTokens(es[0], [es[1]] + es[2..]);
    ConsTokens(es[1], es[2..]);
    Opening("store", TreeTokens(es[1]), AllTokens(es[2..]));
  }

  lemma Opening(op: string, a: seq<string>, b: seq<string>)
    ensures ["(", op] + a + b == ["("] + ([op] + (a + b))
  {
  }

  lemma PlainHeaderTokens(level: nat, op: Sexp, lead: seq<Sexp>, rest: seq<Sexp>)
    requires op.Sym? && Clean(op) && forall x :: x in lead ==> Clean(x)
    ensures Tokens(Header(level, op.text, lead)) + AllTokens(rest) == ["("] + AllTokens([op] + (lead + rest))
  {
    LeadTokens(level, op.text, lead);
    AllTokensAppend(lead, rest);
    ConsTokens(op, lead + rest);
    Opening(op.text, AllTokens(lead), AllTokens(rest));
  }

  lemma LeadTokens(level: nat, op: string, lead: seq<Sexp>)
    requires CleanWord(op) && forall x :: x in lead ==> Clean(x)
    ensures Tokens(Header(level, op, lead)) == ["(", op] + AllTokens(lead)
  {
    HeaderTokens(level, op, StringifyAll(lead));
    StringifyAllTokens(lead);
  }

  lemma PlainTextTokens(level: nat, es: seq<Sexp>, lead: seq<Sexp>, rest: seq<Sexp>, body: seq<string>)
    requires es != [] && es[0].Sym? && Clean(es[0]) && forall x :: x in lead ==> Clean(x)
    requires es == [es[0]] + (lead + rest) && TokensOfLines(body) == AllTokens(rest)
    ensures rest == [] ==> Tokens(Header(level, es[0].text, lead) + ")") == TreeTokens(List(es))
    ensures Tokens(Framed(Header(level, es[0].text, lead), body, level)) == TreeTokens(List(es))
  {
    PlainHeaderTokens(level, es[0], lead, rest);
    ClosedTokens(Header(level, es[0].text, lead));
    FramedTokens(Header(level, es[0].text, lead), body, level);
  }

  lemma {:induction false} PlainTokens(e: Sexp, level: nat)
    requires Clean(e) && Printable(e) && e.List? && e.items != []
    requires e.items[0].text != "load" && e.items[0].text != "index"
    requires !(e.items[0].text == "store" && |e.items| > 1)
    ensures Tokens(FormatTree(e, level)) == TreeTokens(e)
    decreases e, 1
  {
    var es, args := e.items, e.items[1..];
    var n := Leading(args);
    assert es == [es[0]] + (args[..n] + args[n..]);
    BodyLinesTokens(args[n..], [], level);
    PlainTextTokens(level, es, args[..n], args[n..], BodyLines(args[n..], [], level));
  }

  lemma {:induction false} EachLineTokens(es: seq<Sexp>, level: nat)
    requires forall x :: x in es ==> Clean(x) && Printable(x)
    ensures TokensOfLines(EachLine(es, level)) == AllTokens(es)
    decreases es, 0
  {
    if es != [] {
      FormatTokens(es[0], level);
      EachLineTokens(es[1..], level);
      assert EachLine(es, level)[1..] == EachLine(es[1..], level);
    }
  }

  lemma FlushedTokens(pending: seq<Sexp>, level: nat)
    requires forall x :: x in pending ==> Clean(x)
    ensures TokensOfLines(Flushed(pending, level)) == AllTokens(pending)
  {
    var text := StringifyAll(pending);
    var line := Indent(level) + "  " + text;
    StringifyAllTokens(pending);
    IndentTokens(level, Indent(1) + text);
    IndentTokens(1, text);
    assert Indent(1) == "  " + Indent(0);
    assert Indent(level) + (Indent(1) + text) == line;
    assert TokensOfLines([line]) == Tokens(line) + TokensOfLines([line][1..]);
  }

  lemma LinesOfThree(before: seq<string>, line: string, tail: seq<string>)
    ensures TokensOfLines(before + [line] + tail) == TokensOfLines(before) + Tokens(line) + TokensOfLines(tail)
  {
    LinesAppend(before + [line], tail);
    LinesAppend(before, [line]);
    assert TokensOfLines([line]) == Tokens(line) + TokensOfLines([line][1..]);
  }

  lemma Reassociate(a: seq<string>, b: seq<string>, c: seq<string>)
    ensures a + b + c == a + (b + c)
  {
  }

  lemma {:induction false} BodyLinesTokens(args: seq<Sexp>, pending: seq<Sexp>, level: nat)
    requires forall x :: x in args ==> Clean(x) && Printable(x)
    requires forall x :: x in pending ==> Clean(x)
    ensures TokensOfLines(BodyLines(args, pending, level)) == AllTokens(pending) + AllTokens(args)
    decreases args, 0
  {
    FlushedTokens(pending, level);
    if args == [] {
      assert BodyLines(args, pending, level) == Flushed(pending, level);
    } else if args[0].List? {
      FormatTokens(args[0], level + 1);
      BodyLinesTokens(args[1..], [], level);
      LinesOfThree(Flushed(pending, level), FormatTree(args[0], level + 1), BodyLines(args[1..], [], level));
      assert AllTokens([]) + AllTokens(args[1..]) == AllTokens(args[1..]);
      Reassociate(AllTokens(pending), TreeTokens(args[0]), AllTokens(args[1..]));
    } else {
      BodyLinesTokens(args[1..], pending + [args[0]], level);
      AllTokensAppend(pending, [args[0]]);
      ConsTokens(args[0], []);
      assert [args[0]] + [] == [args[0]];
    }
  }

  /** Re-reading the formatter's output gives the tree back, at any indentation. */
  lemma FormatRoundTrip(e: Sexp, level: nat)
    requires Clean(e) && Printable(e)
    ensures Parse(Tokens(FormatTree(e, level))) == Ok((e, []))
  {
    FormatTokens(e, level);
    ParseTree(e, []);
    assert TreeTokens(e) + [] == TreeTokens(e);
  }

  /** Formatting is idempotent on every text it accepts. */
  lemma FormatIdempotent(code: string)
    requires Parse(Tokens(code)).Ok? && Printable(Parse(Tokens(code)).value.0)
    ensures var out := FormatLisp(code).value;
      && Parse(Tokens(out)).Ok? && Printable(Parse(Tokens(out)).value.0)
      && FormatLisp(out) == Ok(out)
  {
    TokensAreTokens(code);
    ParseSound(Tokens(code));
    FormatRoundTrip(Parse(Tokens(code)).value.0, 0);
  }

  // ---------------------------------------------------------------------------------------------

  /** The shared token list the parser pops from. */
  class TokenList {
    var tokens: seq<string>

    constructor (code: string)
      ensures tokens == Tokens(code)
    {
      tokens := Tokens(code);
    }

    method ParseNext() returns (r: Result<Sexp>)
      modifies this
      ensures match Parse(old(tokens))
        case Ok((e, rest)) => r == Ok(e) && tokens == rest
        case Err(x) => r == Err(x)
      decreases |tokens|
    {
      if tokens == [] { return Err(UnexpectedEnd); }
      var token := tokens[0];
      tokens := tokens[1..];
      if token == "(" {
        ghost var start := tokens;
        var expr: seq<Sexp> := [];
        assert ParseItems(start).Ok? ==> expr + ParseItems(start).value.0 == ParseItems(start).value.0;
        while tokens != [] && tokens[0] != ")"
          invariant |tokens| <= |start|
          invariant match ParseItems(tokens)
            case Ok((es, rest)) => ParseItems(start) == Ok((expr + es, rest))
            case Err(x) => ParseItems(start) == Err(x)
          decreases |tokens|
        {
          ghost var before := tokens;
          var item := this.ParseNext();
          if item.Err? { return Err(item.error); }
          ghost var tail := ParseItems(tokens);
          assert tail.Ok? ==> expr + ([item.value] + tail.value.0) == expr + [item.value] + tail.value.0;
          expr := expr + [item.value];
        }
        if tokens == [] { return Err(Unclosed); }
        tokens := tokens[1..];
        assert expr + [] == expr;
        return Ok(List(expr));
      } else if token == ")" {
        return Err(UnexpectedClose);
      } else {
        return Ok(Sym(token));
      }
    }
  }
}
