/** S-expressions as text: tokenising, parsing, and the one-line printer.

    The tokeniser puts spaces around parentheses and splits at white space; the parser takes one
    expression off the front of the tokens, with the three errors of the source; the printer puts a
    tree on one line.

    Main results: the tokens of a concatenation at a space or a parenthesis are those of its parts
    (TokensAtSpace, TokensAtParen), parsing the tokens of a tree gives the tree back (ParseTree),
    what is parsed was written (ParseSound), and the one-line text determines the tree
    (StringifyInjective). */
module Sexps {

  datatype Sexp = Sym(text: string) | List(items: seq<Sexp>)

  datatype ParseError = UnexpectedEnd | UnexpectedClose | Unclosed
  datatype Result<+T> = Ok(value: T) | Err(error: ParseError)

  // ---------------------------------------------------------------------------------------------
  // Tokens of a text

  predicate IsSpace(c: char) { c == ' ' || c == '\n' || c == '\t' || c == '\r' }

  predicate IsParen(c: char) { c == '(' || c == ')' }

  /** `replace("(", " ( ").replace(")", " ) ")`. */
  function Pad(s: string): string {
    if s == [] then []
    else (if IsParen(s[0]) then " " + [s[0]] + " " else [s[0]]) + Pad(s[1..])
  }

  /** `split()`, with the word read so far. */
  function Words(s: string, word: string): seq<string> {
    if s == [] then if word == [] then [] else [word]
    else if IsSpace(s[0]) then (if word == [] then [] else [word]) + Words(s[1..], [])
    else Words(s[1..], word + [s[0]])
  }

  function Tokens(s: string): seq<string> {
    Words(Pad(s), [])
  }

  lemma {:induction false} PadAppend(a: string, b: string)
    ensures Pad(a + b) == Pad(a) + Pad(b)
  {
    if a == [] {
      assert a + b == b;
    } else {
      assert (a + b)[1..] == a[1..] + b;
      PadAppend(a[1..], b);
    }
  }

  lemma {:induction false} WordsAtSpace(a: string, c: char, b: string, word: string)
    requires IsSpace(c)
    ensures Words(a + [c] + b, word) == Words(a, word) + Words(b, [])
  {
    if a == [] {
      assert (a + [c] + b)[1..] == b;
    } else {
      assert (a + [c] + b)[1..] == a[1..] + [c] + b;
      WordsAtSpace(a[1..], c, b, if IsSpace(a[0]) then [] else word + [a[0]]);
    }
  }

  lemma TokensAtSpace(a: string, c: char, b: string)
    requires IsSpace(c)
    ensures Tokens(a + [c] + b) == Tokens(a) + Tokens(b)
  {
    PadAppend(a + [c], b);
    PadAppend(a, [c]);
    assert Pad([c]) == [c];
    WordsAtSpace(Pad(a), c, Pad(b), []);
  }

  lemma TokensAtParen(a: string, c: char, b: string)
    requires IsParen(c)
    ensures Tokens(a + [c] + b) == Tokens(a) + [[c]] + Tokens(b)
  {
    PadAppend(a + [c], b);
    PadAppend(a, [c]);
    var pa, pb := Pad(a), Pad(b);
    assert Pad([c]) == " " + [c] + " ";
    assert Pad(a + [c] + b) == pa + [' '] + ([c] + [' '] + pb);
    WordsAtSpace(pa, ' ', [c] + [' '] + pb, []);
    WordsAtSpace([c], ' ', pb, []);
    assert [c][1..] == [] && [] + [c] == [c];
    assert Words([c], []) == Words([], [c]);
  }

  /** A text that survives tokenising as one word. */
  predicate CleanWord(w: string) {
    w != [] && forall c :: c in w ==> !IsSpace(c) && !IsParen(c)
  }

  lemma {:induction false} CleanWordTokens(w: string)
    requires CleanWord(w)
    ensures Tokens(w) == [w]
  {
    PadClean(w);
    WordsClean(w, []);
    assert [] + w == w;
  }

  lemma {:induction false} PadClean(w: string)
    requires forall c :: c in w ==> !IsParen(c)
    ensures Pad(w) == w
  {
    if w != [] {
      PadClean(w[1..]);
      assert w == [w[0]] + w[1..];
    }
  }

  lemma {:induction false} WordsClean(w: string, word: string)
    requires forall c :: c in w ==> !IsSpace(c)
    ensures Words(w, word) == if word + w == [] then [] else [word + w]
  {
    if w == [] {
      assert word + w == word;
    } else {
      WordsClean(w[1..], word + [w[0]]);
      assert word + [w[0]] + w[1..] == word + w;
    }
  }

  /** A token the tokeniser can produce. */
  predicate IsToken(w: string) {
    CleanWord(w) || w == "(" || w == ")"
  }

  /** Every text splits into parentheses and clean words. */
  lemma {:induction false} TokensAreTokens(s: string)
    ensures forall w :: w in Tokens(s) ==> IsToken(w)
    decreases |s|
  {
    if k :| 0 <= k < |s| && IsParen(s[k]) {
      assert s == s[..k] + [s[k]] + s[k + 1..];
      TokensAtParen(s[..k], s[k], s[k + 1..]);
      TokensAreTokens(s[..k]);
      TokensAreTokens(s[k + 1..]);
    } else {
      PadClean(s);
      WordsAreClean(s, []);
    }
  }

  lemma {:induction false} WordsAreClean(s: string, word: string)
    requires forall c :: c in s + word ==> !IsParen(c)
    requires forall c :: c in word ==> !IsSpace(c)
    ensures forall w :: w in Words(s, word) ==> CleanWord(w)
  {
    if s != [] {
      assert s[0] in s + word;
      forall c | c in s[1..] + word + [s[0]] ensures c in s + word { }
      WordsAreClean(s[1..], if IsSpace(s[0]) then [] else word + [s[0]]);
    }
  }

  // ---------------------------------------------------------------------------------------------
  // Parsing

  function TreeTokens(e: Sexp): seq<string>
    decreases e, 1
  {
    match e
    case Sym(t) => [t]
    case List(es) => ["("] + AllTokens(es) + [")"]
  }

  function AllTokens(es: seq<Sexp>): seq<string>
    decreases es, 0
  {
    if es == [] then [] else TreeTokens(es[0]) + AllTokens(es[1..])
  }

  /** Every symbol is a clean word. */
  predicate Clean(e: Sexp) {
    match e
    case Sym(t) => CleanWord(t)
    case List(es) => forall x :: x in es ==> Clean(x)
  }

  /** `parse`: one expression off the front of the tokens. */
  function Parse(ts: seq<string>): (r: Result<(Sexp, seq<string>)>)
    ensures r.Ok? ==> |r.value.1| < |ts|
    decreases |ts|, 0
  {
    if ts == [] then Err(UnexpectedEnd)
    else if ts[0] == "(" then
      match ParseItems(ts[1..])
      case Ok((es, rest)) => Ok((List(es), rest))
      case Err(x) => Err(x)
    else if ts[0] == ")" then Err(UnexpectedClose)
    else Ok((Sym(ts[0]), ts[1..]))
  }

  function ParseItems(ts: seq<string>): (r: Result<(seq<Sexp>, seq<string>)>)
    ensures r.Ok? ==> |r.value.1| < |ts|
    decreases |ts|, 1
  {
    if ts == [] then Err(Unclosed)
    else if ts[0] == ")" then Ok(([], ts[1..]))
    else
      match Parse(ts)
      case Err(x) => Err(x)
      case Ok((e, rest)) =>
        match ParseItems(rest)
        case Err(x) => Err(x)
        case Ok((es, rest')) => Ok(([e] + es, rest'))
  }

  /** Parsing the tokens of a tree gives the tree back and leaves what follows. */
  lemma {:induction false} ParseTree(e: Sexp, rest: seq<string>)
    requires Clean(e)
    ensures Parse(TreeTokens(e) + rest) == Ok((e, rest))
    decreases e, 1
  {
    match e
    case Sym(t) =>
      assert (TreeTokens(e) + rest)[1..] == rest;
      assert t[0] in t;
    case List(es) =>
      assert (TreeTokens(e) + rest)[1..] == AllTokens(es) + ([")"] + rest);
      ParseTrees(es, rest);
  }

  lemma {:induction false} ParseTrees(es: seq<Sexp>, rest: seq<string>)
    requires forall x :: x in es ==> Clean(x)
    ensures ParseItems(AllTokens(es) + ([")"] + rest)) == Ok((es, rest))
    decreases es, 0
  {
    var ts := AllTokens(es) + ([")"] + rest);
    if es == [] {
      assert ts == [")"] + rest && ts[1..] == rest;
    } else {
      var tail := AllTokens(es[1..]) + ([")"] + rest);
      assert ts == TreeTokens(es[0]) + tail;
      ParseTree(es[0], tail);
      ParseTrees(es[1..], rest);
      FirstTokenOpens(es[0]);
      assert es == [es[0]] + es[1..];
    }
  }

  lemma FirstTokenOpens(e: Sexp)
    requires Clean(e)
    ensures TreeTokens(e) != [] && TreeTokens(e)[0] != ")"
  {
    if e.Sym? { assert e.text[0] in e.text; }
  }

  /** What parsing accepts is exactly the tokens of the tree it returns. */
  lemma {:induction false} ParseSound(ts: seq<string>)
    requires forall w :: w in ts ==> IsToken(w)
    requires Parse(ts).Ok?
    ensures var (e, rest) := Parse(ts).value; Clean(e) && ts == TreeTokens(e) + rest
    decreases |ts|, 0
  {
    if ts[0] == "(" {
      ParseItemsSound(ts[1..]);
      assert ts == [ts[0]] + ts[1..];
    } else {
      assert ts[0] in ts;
    }
  }

  lemma {:induction false} ParseItemsSound(ts: seq<string>)
    requires forall w :: w in ts ==> IsToken(w)
    requires ParseItems(ts).Ok?
    ensures var (es, rest) := ParseItems(ts).value;
      (forall x :: x in es ==> Clean(x)) && ts == AllTokens(es) + ([")"] + rest)
    decreases |ts|, 1
  {
    if ts[0] == ")" {
      assert ts == [ts[0]] + ts[1..];
    } else {
      ParseSound(ts);
      var (e, rest) := Parse(ts).value;
      forall w | w in rest ensures IsToken(w) { assert w in ts; }
      ParseItemsSound(rest);
      var (es, rest') := ParseItems(rest).value;
      assert ([e] + es)[1..] == es;
    }
  }

  // ---------------------------------------------------------------------------------------------
  // Printing on one line

  function Stringify(e: Sexp): string
    decreases e, 1
  {
    match e
    case Sym(t) => t
    case List(es) => "(" + StringifyAll(es) + ")"
  }

  /** `" ".join(...)`. */
  function StringifyAll(es: seq<Sexp>): string
    decreases es, 0
  {
    if es == [] then ""
    else if |es| == 1 then Stringify(es[0])
    else Stringify(es[0]) + " " + StringifyAll(es[1..])
  }

  lemma {:induction false} StringifyTokens(e: Sexp)
    requires Clean(e)
    ensures Tokens(Stringify(e)) == TreeTokens(e)
    decreases e, 1
  {
    match e
    case Sym(t) => CleanWordTokens(t);
    case List(es) =>
      StringifyAllTokens(es);
      Wrapped("", StringifyAll(es));
      assert Stringify(e) == "" + "(" + StringifyAll(es) + ")";
  }

  lemma {:induction false} StringifyAllTokens(es: seq<Sexp>)
    requires forall x :: x in es ==> Clean(x)
    ensures Tokens(StringifyAll(es)) == AllTokens(es)
    decreases es, 0
  {
    if es != [] {
      StringifyTokens(es[0]);
      StringifyAllTokens(es[1..]);
      if |es| > 1 {
        TokensAtSpace(Stringify(es[0]), ' ', StringifyAll(es[1..]));
      }
    }
  }

  lemma Wrapped(before: string, inside: string)
    ensures Tokens(before + "(" + inside + ")") == Tokens(before) + ["("] + Tokens(inside) + [")"]
  {
    TokensAtParen(before + "(" + inside, ')', "");
    assert before + "(" + inside + ")" + "" == before + "(" + inside + ")";
    TokensAtParen(before, '(', inside);
    assert Tokens("") == [];
  }

  /** Trees with the same one-line text are equal. */
  lemma StringifyInjective(e: Sexp, f: Sexp)
    requires Clean(e) && Clean(f) && Stringify(e) == Stringify(f)
    ensures e == f
  {
    StringifyTokens(e);
    StringifyTokens(f);
    ParseTree(e, []);
    ParseTree(f, []);
    assert TreeTokens(e) + [] == TreeTokens(f) + [];
  }
}
