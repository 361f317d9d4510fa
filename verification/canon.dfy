/** Canonical names: the signatures of candidates in backend/profile/benchmark.py.  Tokens that are
    not fixed are renamed in order of first appearance.  Main results: two candidates have the same
    signature exactly when they agree up to an injective renaming (CanonicalIffRenamed), signatures
    are stable (CanonIdempotent), and one representative per signature covers all candidates. */
module Canonical {
  import opened Text
  import opened Sexps

  const KEYWORDS: set<string> := {
    "seq", "loop", "store", "load", "tensor", "input", "output", "index",
    "fulltile", "elem", "tile", "const_tile", "+", "-", "*", "/", "@",
    "exp", "sqr", "sqrt", "sigmoid", "cast", "rsum", "rmax", "rmin",
    "bcast", "permute3", "permute4", "transpose", "unsqueeze", "squeeze",
    "concat", "max", "min", "arange", "dummy", "let", "if", "else"
  }

  function Alias(n: nat): string { "v" + NatText(n) }

  /** Tokens that keep their spelling.  `isNumber` is the host language's number syntax. */
  function Keeps(isNumber: string -> bool): string -> bool {
    t => t == "(" || t == ")" || t in KEYWORDS || isNumber(t)
  }

  /** All that is used of the kept tokens: nothing of the form of an alias is one. */
  ghost predicate NoAliasKept(fixed: string -> bool) {
    forall n: nat :: !fixed(Alias(n))
  }

  ghost predicate NoAliasIsNumber(isNumber: string -> bool) {
    forall n: nat :: !isNumber(Alias(n))
  }

  lemma AliasIsFree(isNumber: string -> bool)
    requires NoAliasIsNumber(isNumber)
    ensures NoAliasKept(Keeps(isNumber))
  {
    forall n: nat ensures !Keeps(isNumber)(Alias(n)) {
      AliasIsNoKeyword(n);
      assert Alias(n)[0] == 'v';
    }
  }

  lemma AliasIsNoKeyword(n: nat)
    ensures Alias(n) !in KEYWORDS
  {
    var a := Alias(n);
    assert a[0] == 'v' && a[1] in NatText(n);
    forall k | k in KEYWORDS ensures k != a {
      assert k[0] != 'v';
    }
  }

  lemma AliasInjective(m: nat, n: nat)
    requires Alias(m) == Alias(n)
    ensures m == n
  {
    assert Alias(m)[1..] == NatText(m) && Alias(n)[1..] == NatText(n);
    NatTextInjective(m, n);
  }

  // ---------------------------------------------------------------------------------------------
  // Canonicalising a token list, given the names seen before it

  function IndexOf(x: string, xs: seq<string>): (k: nat)
    requires x in xs
    ensures k < |xs| && xs[k] == x
  {
    if xs[0] == x then 0 else 1 + IndexOf(x, xs[1..])
  }

  predicate Distinct(xs: seq<string>) {
    forall i, j :: 0 <= i < j < |xs| ==> xs[i] != xs[j]
  }

  lemma IndexIsOnly(x: string, xs: seq<string>, k: nat)
    requires Distinct(xs) && k < |xs| && xs[k] == x
    ensures IndexOf(x, xs) == k
  {
  }

  function Remember(fixed: string -> bool, t: string, seen: seq<string>): seq<string> {
    if fixed(t) || t in seen then seen else seen + [t]
  }

  function Rendered(fixed: string -> bool, t: string, seen: seq<string>): string {
    if fixed(t) then t else if t in seen then Alias(IndexOf(t, seen)) else Alias(|seen|)
  }

  function Seen(fixed: string -> bool, tokens: seq<string>, seen: seq<string>): seq<string> {
    if tokens == [] then seen else Seen(fixed, tokens[1..], Remember(fixed, tokens[0], seen))
  }

  /** The canonical form of the rest of a token list. */
  function Canon(fixed: string -> bool, tokens: seq<string>, seen: seq<string>): seq<string> {
    if tokens == [] then []
    else [Rendered(fixed, tokens[0], seen)] + Canon(fixed, tokens[1..], Remember(fixed, tokens[0], seen))
  }

  lemma {:induction false} CanonAppend(fixed: string -> bool, a: seq<string>, b: seq<string>, seen: seq<string>)
    ensures Canon(fixed, a + b, seen) == Canon(fixed, a, seen) + Canon(fixed, b, Seen(fixed, a, seen))
    ensures Seen(fixed, a + b, seen) == Seen(fixed, b, Seen(fixed, a, seen))
  {
    if a == [] {
      assert a + b == b;
    } else {
      var next := Remember(fixed, a[0], seen);
      assert (a + b)[0] == a[0] && (a + b)[1..] == a[1..] + b;
      CanonAppend(fixed, a[1..], b, next);
      assert Canon(fixed, a + b, seen) == [Rendered(fixed, a[0], seen)] + Canon(fixed, a[1..] + b, next);
    }
  }

  /** One token more. */
  lemma CanonNext(fixed: string -> bool, tokens: seq<string>, i: nat)
    requires i < |tokens|
    ensures Canon(fixed, tokens[..i + 1], []) ==
      Canon(fixed, tokens[..i], []) + [Rendered(fixed, tokens[i], Seen(fixed, tokens[..i], []))]
    ensures Seen(fixed, tokens[..i + 1], []) == Remember(fixed, tokens[i], Seen(fixed, tokens[..i], []))
  {
    var token, seen := tokens[i], Seen(fixed, tokens[..i], []);
    assert tokens[..i + 1] == tokens[..i] + [token];
    CanonAppend(fixed, tokens[..i], [token], []);
    assert Canon(fixed, [token], seen) == [Rendered(fixed, token, seen)];
    assert Seen(fixed, [token], seen) == Remember(fixed, token, seen);
  }

  /** The first token, and the rest with what is known after it. */
  lemma CanonHead(fixed: string -> bool, a: seq<string>, sa: seq<string>)
    requires a != []
    ensures Canon(fixed, a, sa) == [Rendered(fixed, a[0], sa)] + Canon(fixed, a[1..], Remember(fixed, a[0], sa))
    ensures Seen(fixed, a, sa) == Seen(fixed, a[1..], Remember(fixed, a[0], sa))
  {
  }

  lemma SameHeads(fixed: string -> bool, a: seq<string>, b: seq<string>, sa: seq<string>, sb: seq<string>)
    requires a != [] && b != [] && Canon(fixed, a, sa) == Canon(fixed, b, sb)
    ensures Rendered(fixed, a[0], sa) == Rendered(fixed, b[0], sb)
    ensures Canon(fixed, a[1..], Remember(fixed, a[0], sa)) == Canon(fixed, b[1..], Remember(fixed, b[0], sb))
  {
    CanonHead(fixed, a, sa);
    CanonHead(fixed, b, sb);
    var ca, cb := Canon(fixed, a, sa), Canon(fixed, b, sb);
    assert ca[0] == cb[0] && ca[1..] == cb[1..];
  }

  /** The table of the loop below holds exactly the names seen so far, with their aliases. */
  ghost predicate Holds(table: map<string, string>, seen: seq<string>) {
    && Distinct(seen)
    && |table| == |seen|
    && (forall x :: x in table <==> x in seen)
    && (forall x :: x in seen ==> table[x] == Alias(IndexOf(x, seen)))
  }

  lemma HoldsMore(table: map<string, string>, seen: seq<string>, t: string)
    requires Holds(table, seen) && t !in table
    ensures Holds(table[t := Alias(|seen|)], seen + [t])
  {
    var more := seen + [t];
    forall x | x in more ensures table[t := Alias(|seen|)][x] == Alias(IndexOf(x, more)) {
      IndexIsOnly(x, more, if x == t then |seen| else IndexOf(x, seen));
    }
  }

  method CanonicalizeTokens(fixed: string -> bool, tokens: seq<string>) returns (normalized: seq<string>)
    ensures normalized == Canon(fixed, tokens, [])
  {
    var mapping: map<string, string> := map[];
    normalized := [];
    ghost var seen := [];
    for i := 0 to |tokens|
      invariant Holds(mapping, seen) && seen == Seen(fixed, tokens[..i], [])
      invariant normalized == Canon(fixed, tokens[..i], [])
    {
      var token := tokens[i];
      CanonNext(fixed, tokens, i);
      if fixed(token) {
        normalized := normalized + [token];
      } else if token in mapping {
        normalized := normalized + [mapping[token]];
      } else {
        HoldsMore(mapping, seen, token);
        var alias := Alias(|mapping|);
        mapping := mapping[token := alias];
        normalized := normalized + [alias];
        seen := seen + [token];
      }
    }
    assert tokens[..|tokens|] == tokens;
  }

  // ---------------------------------------------------------------------------------------------
  // Renamings

  function Renamed(fixed: string -> bool, rho: map<string, string>, t: string): string {
    if fixed(t) || t !in rho then t else rho[t]
  }

  function RenamedAll(fixed: string -> bool, rho: map<string, string>, tokens: seq<string>): seq<string> {
    seq(|tokens|, k requires 0 <= k < |tokens| => Renamed(fixed, rho, tokens[k]))
  }

  /** An injective renaming of free tokens by free tokens that names every free token of the list. */
  ghost predicate Renames(fixed: string -> bool, rho: map<string, string>, tokens: seq<string>) {
    && (forall x :: x in rho ==> !fixed(rho[x]))
    && (forall x, y :: x in rho && y in rho && rho[x] == rho[y] ==> x == y)
    && (forall t :: t in tokens && !fixed(t) ==> t in rho)
  }

  ghost predicate SameUpToNames(fixed: string -> bool, a: seq<string>, b: seq<string>) {
    exists rho :: Renames(fixed, rho, a) && RenamedAll(fixed, rho, a) == b
  }

  /** Position by position, the names seen in two lists correspond under a renaming. */
  ghost predicate SeenRenamed(fixed: string -> bool, rho: map<string, string>, sa: seq<string>, sb: seq<string>) {
    && |sa| == |sb| && Distinct(sa)
    && forall k :: 0 <= k < |sa| ==> sa[k] in rho && sb[k] == rho[sa[k]] && !fixed(sa[k])
  }

  lemma SeenRenamedIn(fixed: string -> bool, rho: map<string, string>, sa: seq<string>, sb: seq<string>, t: string)
    requires SeenRenamed(fixed, rho, sa, sb) && t in rho
    requires forall x, y :: x in rho && y in rho && rho[x] == rho[y] ==> x == y
    ensures t in sa <==> rho[t] in sb
    ensures t in sa ==> IndexOf(t, sa) == IndexOf(rho[t], sb)
  {
    if rho[t] in sb {
      assert sa[IndexOf(rho[t], sb)] == t;
    }
    if t in sa {
      assert sb[IndexOf(t, sa)] == rho[t];
      forall i, j | 0 <= i < j < |sb| ensures sb[i] != sb[j] { assert sa[i] != sa[j]; }
      IndexIsOnly(rho[t], sb, IndexOf(t, sa));
    }
  }

  lemma {:induction false} CanonOfRenamed(fixed: string -> bool, rho: map<string, string>, a: seq<string>,
      sa: seq<string>, sb: seq<string>)
    requires Renames(fixed, rho, a) && SeenRenamed(fixed, rho, sa, sb)
    ensures Canon(fixed, RenamedAll(fixed, rho, a), sb) == Canon(fixed, a, sa)
  {
    if a != [] {
      var b, t := RenamedAll(fixed, rho, a), a[0];
      assert b[1..] == RenamedAll(fixed, rho, a[1..]);
      if !fixed(t) {
        assert t in a;
        SeenRenamedIn(fixed, rho, sa, sb, t);
      }
      CanonOfRenamed(fixed, rho, a[1..], Remember(fixed, t, sa), Remember(fixed, b[0], sb));
    }
  }

  lemma {:induction false} SeenGrows(fixed: string -> bool, a: seq<string>, sa: seq<string>)
    requires Distinct(sa) && forall t :: t in sa ==> !fixed(t)
    ensures sa <= Seen(fixed, a, sa) && Distinct(Seen(fixed, a, sa))
    ensures forall t :: t in Seen(fixed, a, sa) ==> !fixed(t)
    ensures forall t :: t in a && !fixed(t) ==> t in Seen(fixed, a, sa)
  {
    if a != [] {
      var next := Remember(fixed, a[0], sa);
      SeenGrows(fixed, a[1..], next);
      forall t | t in a && !fixed(t) ensures t in Seen(fixed, a, sa) {
        if t == a[0] { assert t in next; } else { assert t in a[1..]; }
      }
    }
  }

  ghost predicate FreeNames(fixed: string -> bool, xs: seq<string>) {
    Distinct(xs) && forall t :: t in xs ==> !fixed(t)
  }

  /** The renaming that pairs two lists of seen names. */
  ghost function Pairing(sa: seq<string>, sb: seq<string>): map<string, string>
    requires |sa| == |sb|
  {
    map t | t in sa :: sb[IndexOf(t, sa)]
  }

  lemma PairingRenames(fixed: string -> bool, sa: seq<string>, sb: seq<string>, a: seq<string>)
    requires |sa| == |sb| && FreeNames(fixed, sa) && FreeNames(fixed, sb)
    requires forall t :: t in a && !fixed(t) ==> t in sa
    ensures Renames(fixed, Pairing(sa, sb), a)
  {
    var rho := Pairing(sa, sb);
    forall x, y | x in rho && y in rho && rho[x] == rho[y] ensures x == y {
      var i, j := IndexOf(x, sa), IndexOf(y, sa);
      assert sb[i] == sb[j];
    }
  }

  /** Two first tokens rendered alike are the same fixed token, or free and seen at the same place. */
  ghost predicate Correspond(fixed: string -> bool, s: string, t: string, sa: seq<string>, sb: seq<string>) {
    && |sa| == |sb| && FreeNames(fixed, sa) && FreeNames(fixed, sb)
    && if fixed(s) then s == t
       else !fixed(t) && exists k :: 0 <= k < |sa| && sa[k] == s && sb[k] == t
  }

  lemma HeadsCorrespond(fixed: string -> bool, s: string, t: string, sa: seq<string>, sb: seq<string>)
    requires NoAliasKept(fixed)
    requires |sa| == |sb| && FreeNames(fixed, sa) && FreeNames(fixed, sb)
    requires Rendered(fixed, s, sa) == Rendered(fixed, t, sb)
    ensures Correspond(fixed, s, t, Remember(fixed, s, sa), Remember(fixed, t, sb))
  {
    var i := if s in sa then IndexOf(s, sa) else |sa|;
    var j := if t in sb then IndexOf(t, sb) else |sb|;
    if !fixed(s) && !fixed(t) {
      AliasInjective(i, j);
      assert Remember(fixed, s, sa)[i] == s && Remember(fixed, t, sb)[i] == t;
    }
  }

  /** What corresponds stays paired when more names are seen. */
  lemma PairedLater(fixed: string -> bool, s: string, t: string, sa: seq<string>, sb: seq<string>, fa: seq<string>,
      fb: seq<string>)
    requires Correspond(fixed, s, t, sa, sb)
    requires sa <= fa && sb <= fb && |fa| == |fb| && Distinct(fa)
    ensures Renamed(fixed, Pairing(fa, fb), s) == t
  {
    if !fixed(s) {
      var k :| 0 <= k < |sa| && sa[k] == s && sb[k] == t;
      assert fa[k] == s && fb[k] == t;
      IndexIsOnly(s, fa, k);
    }
  }

  lemma HeadPaired(fixed: string -> bool, a: seq<string>, b: seq<string>, sa: seq<string>, sb: seq<string>)
    requires a != [] && b != [] && Correspond(fixed, a[0], b[0], sa, sb)
    requires |Seen(fixed, a[1..], sa)| == |Seen(fixed, b[1..], sb)|
    ensures Renamed(fixed, Pairing(Seen(fixed, a[1..], sa), Seen(fixed, b[1..], sb)), a[0]) == b[0]
  {
    SeenGrows(fixed, a[1..], sa);
    SeenGrows(fixed, b[1..], sb);
    PairedLater(fixed, a[0], b[0], sa, sb, Seen(fixed, a[1..], sa), Seen(fixed, b[1..], sb));
  }

  lemma Assembled(fixed: string -> bool, rho: map<string, string>, a: seq<string>, b: seq<string>)
    requires a != [] && b != [] && Renamed(fixed, rho, a[0]) == b[0] && RenamedAll(fixed, rho, a[1..]) == b[1..]
    ensures RenamedAll(fixed, rho, a) == b
  {
    RenamedHead(fixed, rho, a);
    assert b == [b[0]] + b[1..];
  }

  /** Lists with one canonical form are seen alike, and pairing their names turns one into the other. */
  lemma {:induction false} CanonDetermines(fixed: string -> bool, a: seq<string>, b: seq<string>, sa: seq<string>,
      sb: seq<string>)
    requires NoAliasKept(fixed)
    requires |sa| == |sb| && FreeNames(fixed, sa) && FreeNames(fixed, sb)
    requires Canon(fixed, a, sa) == Canon(fixed, b, sb)
    ensures |a| == |b| && |Seen(fixed, a, sa)| == |Seen(fixed, b, sb)|
    ensures RenamedAll(fixed, Pairing(Seen(fixed, a, sa), Seen(fixed, b, sb)), a) == b
  {
    if a != [] && b != [] {
      var s, t := a[0], b[0];
      var sa', sb' := Remember(fixed, s, sa), Remember(fixed, t, sb);
      SameHeads(fixed, a, b, sa, sb);
      HeadsCorrespond(fixed, s, t, sa, sb);
      CanonDetermines(fixed, a[1..], b[1..], sa', sb');
      HeadPaired(fixed, a, b, sa', sb');
      CanonHead(fixed, a, sa);
      CanonHead(fixed, b, sb);
      Assembled(fixed, Pairing(Seen(fixed, a, sa), Seen(fixed, b, sb)), a, b);
    }
  }

  lemma RenamedHead(fixed: string -> bool, rho: map<string, string>, a: seq<string>)
    requires a != []
    ensures RenamedAll(fixed, rho, a) == [Renamed(fixed, rho, a[0])] + RenamedAll(fixed, rho, a[1..])
  {
  }

  /** Two token lists have the same canonical form exactly when an injective renaming of their free
      tokens turns one into the other. */
  lemma CanonicalIffRenamed(fixed: string -> bool, a: seq<string>, b: seq<string>)
    requires NoAliasKept(fixed)
    ensures Canon(fixed, a, []) == Canon(fixed, b, []) <==> SameUpToNames(fixed, a, b)
  {
    if rho :| Renames(fixed, rho, a) && RenamedAll(fixed, rho, a) == b {
      CanonOfRenamed(fixed, rho, a, [], []);
    }
    if Canon(fixed, a, []) == Canon(fixed, b, []) {
      CanonDetermines(fixed, a, b, [], []);
      SeenGrows(fixed, a, []);
      SeenGrows(fixed, b, []);
      PairingRenames(fixed, Seen(fixed, a, []), Seen(fixed, b, []), a);
    }
  }

  // ---------------------------------------------------------------------------------------------
  // Idempotence

  ghost function Aliases(n: nat): seq<string> { seq(n, k requires 0 <= k < n => Alias(k)) }

  lemma AliasesFree(fixed: string -> bool, n: nat)
    requires NoAliasKept(fixed)
    ensures FreeNames(fixed, Aliases(n))
  {
    forall i, j | 0 <= i < j < n ensures Alias(i) != Alias(j) {
      if Alias(i) == Alias(j) { AliasInjective(i, j); }
    }
    forall t | t in Aliases(n) ensures !fixed(t) {
      var k :| 0 <= k < n && t == Alias(k);
      }
  }

  /** The canonical form is itself a renaming of the list. */
  lemma {:induction false} CanonIsRenaming(fixed: string -> bool, a: seq<string>, sa: seq<string>)
    requires FreeNames(fixed, sa)
    ensures RenamedAll(fixed, Pairing(Seen(fixed, a, sa), Aliases(|Seen(fixed, a, sa)|)), a) == Canon(fixed, a, sa)
  {
    if a != [] {
      var s, sa' := a[0], Remember(fixed, a[0], sa);
      CanonIsRenaming(fixed, a[1..], sa');
      SeenGrows(fixed, a[1..], sa');
      var fa := Seen(fixed, a, sa);
      var rho := Pairing(fa, Aliases(|fa|));
      if !fixed(s) {
        var k := if s in sa then IndexOf(s, sa) else |sa|;
        assert fa[k] == s;
        IndexIsOnly(s, fa, k);
        assert Renamed(fixed, rho, s) == Alias(k);
      }
      assert RenamedAll(fixed, rho, a) == [Renamed(fixed, rho, s)] + RenamedAll(fixed, rho, a[1..]);
    }
  }

  /** Canonicalising a canonical form changes nothing. */
  lemma CanonIdempotent(fixed: string -> bool, a: seq<string>)
    requires NoAliasKept(fixed)
    ensures Canon(fixed, Canon(fixed, a, []), []) == Canon(fixed, a, [])
  {
    var sa := Seen(fixed, a, []);
    SeenGrows(fixed, a, []);
    AliasesFree(fixed, |sa|);
    PairingRenames(fixed, sa, Aliases(|sa|), a);
    CanonIsRenaming(fixed, a, []);
    assert SameUpToNames(fixed, a, Canon(fixed, a, []));
    CanonicalIffRenamed(fixed, a, Canon(fixed, a, []));
  }

  // ---------------------------------------------------------------------------------------------
  // The signature of a text

  /** `" ".join(words)`. */
  function Spaced(words: seq<string>): string {
    if words == [] then "" else if |words| == 1 then words[0] else words[0] + " " + Spaced(words[1..])
  }

  function CanonText(fixed: string -> bool, text: string): string {
    Spaced(Canon(fixed, Tokens(text), []))
  }

  lemma {:induction false} SpacedTokens(words: seq<string>)
    requires forall w :: w in words ==> IsToken(w)
    ensures Tokens(Spaced(words)) == words
  {
    if words != [] {
      var w := words[0];
      assert w in words;
      if CleanWord(w) {
        CleanWordTokens(w);
      } else {
        TokensAtParen("", w[0], "");
        assert "" + [w[0]] + "" == w;
        assert Pad("") == "" && Words("", []) == [];
      }
      if |words| > 1 {
        SpacedTokens(words[1..]);
        TokensAtSpace(w, ' ', Spaced(words[1..]));
      }
    }
  }

  lemma {:induction false} CanonTokens(fixed: string -> bool, tokens: seq<string>, seen: seq<string>)
    requires forall w :: w in tokens ==> IsToken(w)
    ensures forall w :: w in Canon(fixed, tokens, seen) ==> IsToken(w)
  {
    if tokens != [] {
      var rest := Canon(fixed, tokens[1..], Remember(fixed, tokens[0], seen));
      CanonTokens(fixed, tokens[1..], Remember(fixed, tokens[0], seen));
      var r := Rendered(fixed, tokens[0], seen);
      assert tokens[0] in tokens;
      if r != tokens[0] {
        AliasIsClean(if tokens[0] in seen then IndexOf(tokens[0], seen) else |seen|);
      }
      assert IsToken(r);
    }
  }

  lemma AliasIsClean(n: nat)
    ensures CleanWord(Alias(n))
  {
    forall c | c in Alias(n) ensures !IsSpace(c) && !IsParen(c) {
      assert c == 'v' || c in NatText(n);
    }
  }

  /** The signature text holds exactly the canonical tokens. */
  lemma SignatureTokens(fixed: string -> bool, text: string)
    ensures Tokens(CanonText(fixed, text)) == Canon(fixed, Tokens(text), [])
  {
    TokensAreTokens(text);
    CanonTokens(fixed, Tokens(text), []);
    SpacedTokens(Canon(fixed, Tokens(text), []));
  }

  /** Two candidates get the same signature exactly when they are the same up to their names. */
  lemma SameSignatureIffRenamed(fixed: string -> bool, x: string, y: string)
    requires NoAliasKept(fixed)
    ensures CanonText(fixed, x) == CanonText(fixed, y) <==> SameUpToNames(fixed, Tokens(x), Tokens(y))
  {
    SignatureTokens(fixed, x);
    SignatureTokens(fixed, y);
    CanonicalIffRenamed(fixed, Tokens(x), Tokens(y));
  }

  lemma SignatureIdempotent(fixed: string -> bool, x: string)
    requires NoAliasKept(fixed)
    ensures CanonText(fixed, CanonText(fixed, x)) == CanonText(fixed, x)
  {
    SignatureTokens(fixed, x);
    CanonIdempotent(fixed, Tokens(x));
  }

  // ---------------------------------------------------------------------------------------------
  // One representative per signature

  /** The candidates that stand for a list of texts: increasing, pairwise different up to names, and
      every text is one of them up to names, the first of its kind. */
  ghost predicate Represent(fixed: string -> bool, texts: seq<string>, unique: seq<nat>) {
    && FirstOfEach(Signatures(fixed, texts), unique)
    && (forall i, j :: 0 <= i < j < |unique| ==>
      !SameUpToNames(fixed, Tokens(texts[unique[i]]), Tokens(texts[unique[j]])))
    && forall c :: 0 <= c < |texts| ==> RenamedBefore(fixed, texts, unique, c)
  }

  ghost predicate RenamedBefore(fixed: string -> bool, texts: seq<string>, unique: seq<nat>, c: nat)
    requires c < |texts| && FirstOfEach(Signatures(fixed, texts), unique)
  {
    exists i :: 0 <= i < |unique| && unique[i] <= c && SameUpToNames(fixed, Tokens(texts[unique[i]]), Tokens(texts[c]))
  }

  function Signatures(fixed: string -> bool, texts: seq<string>): (r: seq<string>) {
    seq(|texts|, k requires 0 <= k < |texts| => CanonText(fixed, texts[k]))
  }

  ghost predicate FirstOfEach(signatures: seq<string>, unique: seq<nat>) {
    && (forall i :: 0 <= i < |unique| ==> unique[i] < |signatures|)
    && (forall i, j :: 0 <= i < j < |unique| ==>
      unique[i] < unique[j] && signatures[unique[i]] != signatures[unique[j]])
    && forall c :: 0 <= c < |signatures| ==> FirstBefore(signatures, unique, c)
  }

  ghost predicate FirstBefore(signatures: seq<string>, unique: seq<nat>, c: nat)
    requires c < |signatures|
  {
    exists i :: 0 <= i < |unique| && unique[i] <= c && signatures[unique[i]] == signatures[c]
  }

  /** The first member of each signature group, in order of appearance. */
  method UniqueMembers(signatures: seq<string>) returns (unique: seq<nat>)
    ensures FirstOfEach(signatures, unique)
  {
    var groups: map<string, seq<nat>> := map[];
    unique := [];
    for c := 0 to |signatures|
      invariant FirstOfEach(signatures[..c], unique)
      invariant forall s :: s in groups <==> s in signatures[..c]
    {
      var signature := signatures[c];
      ghost var before, was := signatures[..c], unique;
      assert signatures[..c + 1] == before + [signature];
      if signature in groups {
        groups := groups[signature := groups[signature] + [c]];
        ghost var d :| 0 <= d < c && before[d] == signature;
        assert FirstBefore(before, unique, d);
      } else {
        groups := groups[signature := [c]];
        unique := unique + [c];
        assert unique[|was|] == c;
      }
      ghost var now := signatures[..c + 1];
      forall d: nat | d < |now| ensures FirstBefore(now, unique, d) {
        if d < c {
          assert FirstBefore(before, was, d);
          var i :| 0 <= i < |was| && was[i] <= d && before[was[i]] == before[d];
          assert unique[i] == was[i];
        }
      }
    }
    assert signatures[..|signatures|] == signatures;
  }

  /** Benchmarking the first of each signature benchmarks every candidate up to its names. */
  lemma RepresentativesSuffice(fixed: string -> bool, texts: seq<string>, unique: seq<nat>)
    requires NoAliasKept(fixed) && FirstOfEach(Signatures(fixed, texts), unique)
    ensures Represent(fixed, texts, unique)
  {
    forall i, j | 0 <= i < j < |unique|
      ensures !SameUpToNames(fixed, Tokens(texts[unique[i]]), Tokens(texts[unique[j]]))
    {
      SameSignatureIffRenamed(fixed, texts[unique[i]], texts[unique[j]]);
    }
    forall c | 0 <= c < |texts| ensures RenamedBefore(fixed, texts, unique, c) {
      assert FirstBefore(Signatures(fixed, texts), unique, c);
      var i :| 0 <= i < |unique| && unique[i] <= c &&
        Signatures(fixed, texts)[unique[i]] == Signatures(fixed, texts)[c];
      SameSignatureIffRenamed(fixed, texts[unique[i]], texts[c]);
    }
  }

  /** `_canonicalize_ir` with its own keywords. */
  method CanonicalizeIr(isNumber: string -> bool, irExpr: string) returns (signature: string)
    ensures signature == CanonText(Keeps(isNumber), irExpr)
  {
    var normalized := CanonicalizeTokens(Keeps(isNumber), Tokens(irExpr));
    signature := Spaced(normalized);
  }

  /** With the keywords of the IR and any number syntax that refuses the aliases, two candidates share a
      signature exactly when they agree up to an injective renaming, and signatures are stable. */
  lemma CandidateSignatures(isNumber: string -> bool, x: string, y: string)
    requires NoAliasIsNumber(isNumber)
    ensures var fixed := Keeps(isNumber);
            (CanonText(fixed, x) == CanonText(fixed, y) <==> SameUpToNames(fixed, Tokens(x), Tokens(y))) &&
            CanonText(fixed, CanonText(fixed, x)) == CanonText(fixed, x)
  {
    AliasIsFree(isNumber);
    SameSignatureIffRenamed(Keeps(isNumber), x, y);
    SignatureIdempotent(Keeps(isNumber), x);
  }
}
