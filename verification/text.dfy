/** Decimal numerals and comma-joined names.

    Numerals are written the usual way, without leading zeros, and with a minus sign for negative
    numbers; different numbers have different numerals.  Names are joined with commas when calls
    are printed as one node, and the k-th component of a joined name belongs to the k-th member; a
    name that is not joined is shared by all members.

    Main results: splitting undoes joining for names without commas (SplitJoin), joining undoes
    splitting for every name (JoinSplit), and numerals are injective (NatTextInjective,
    IntTextInjective). */
module Text {

  function Digit(d: nat): (c: char)
    requires d < 10
    ensures '0' <= c <= '9'
  {
    ('0' as int + d) as char
  }

  function NatText(n: nat): (s: string)
    ensures s != [] && forall c :: c in s ==> '0' <= c <= '9'
  {
    if n < 10 then [Digit(n)] else NatText(n / 10) + [Digit(n % 10)]
  }

  function IntText(n: int): string {
    if n < 0 then "-" + NatText(-n) else NatText(n)
  }

  predicate IsNumeral(s: string) {
    s != [] && ('0' <= s[0] <= '9' || s[0] == '-')
  }

  function NatValue(s: string): int {
    if s == [] then 0 else 10 * NatValue(s[..|s| - 1]) + (s[|s| - 1] as int - '0' as int)
  }

  lemma {:induction false} NatTextValue(n: nat)
    ensures NatValue(NatText(n)) == n
  {
    if n < 10 {
      assert NatText(n)[..0] == [];
    } else {
      var s := NatText(n);
      assert s[..|s| - 1] == NatText(n / 10);
      NatTextValue(n / 10);
    }
  }

  lemma NatTextInjective(m: nat, n: nat)
    requires NatText(m) == NatText(n)
    ensures m == n
  {
    NatTextValue(m);
    NatTextValue(n);
  }

  lemma IntTextInjective(m: int, n: int)
    requires IntText(m) == IntText(n)
    ensures m == n
  {
    if m < 0 && n < 0 {
      assert IntText(m)[1..] == NatText(-m);
      assert IntText(n)[1..] == NatText(-n);
      NatTextInjective(-m, -n);
    } else if m >= 0 && n >= 0 {
      NatTextInjective(m, n);
    } else {
      var k := if m >= 0 then m else n;
      assert NatText(k)[0] in NatText(k);
    }
  }

  /** `",".join(names)`. */
  function JoinNames(names: seq<string>): string {
    if names == [] then ""
    else if |names| == 1 then names[0]
    else names[0] + "," + JoinNames(names[1..])
  }

  /** `name.split(",")`. */
  function SplitNames(s: string): (parts: seq<string>)
    ensures parts != []
  {
    if s == [] then [""]
    else
      var rest := SplitNames(s[1..]);
      if s[0] == ',' then [""] + rest else [[s[0]] + rest[0]] + rest[1..]
  }

  predicate OneName(s: string) {
    ',' !in s
  }

  lemma {:induction false} SplitOne(s: string)
    requires OneName(s)
    ensures SplitNames(s) == [s]
  {
    if s != [] {
      SplitOne(s[1..]);
      assert s == [s[0]] + s[1..];
    }
  }

  lemma {:induction false} SplitAtComma(s: string, rest: string)
    requires OneName(s)
    ensures SplitNames(s + "," + rest) == [s] + SplitNames(rest)
  {
    if s == [] {
      assert s + "," + rest == "," + rest;
      assert ("," + rest)[1..] == rest;
    } else {
      var whole := s + "," + rest;
      assert whole[1..] == s[1..] + "," + rest;
      SplitAtComma(s[1..], rest);
      assert whole[0] == s[0];
      assert [s[0]] + s[1..] == s;
    }
  }

  /** Splitting undoes joining. */
  lemma {:induction false} SplitJoin(names: seq<string>)
    requires names != [] && forall n :: n in names ==> OneName(n)
    ensures SplitNames(JoinNames(names)) == names
  {
    if |names| == 1 {
      SplitOne(names[0]);
    } else {
      SplitAtComma(names[0], JoinNames(names[1..]));
      SplitJoin(names[1..]);
    }
  }

  /** Joining undoes splitting. */
  lemma {:induction false} JoinSplit(s: string)
    ensures JoinNames(SplitNames(s)) == s
  {
    if s != [] {
      JoinSplit(s[1..]);
      var rest := SplitNames(s[1..]);
      if s[0] == ',' {
        assert ([""] + rest)[1..] == rest;
        assert "" + "," + JoinNames(rest) == s;
      } else {
        var first := [s[0]] + rest[0];
        var parts := [first] + rest[1..];
        assert parts[1..] == rest[1..];
        if |rest| == 1 {
          assert JoinNames(parts) == first;
        } else {
          assert JoinNames(parts) == first + "," + JoinNames(rest[1..]);
        }
        assert s == [s[0]] + s[1..];
      }
    }
  }

  /** The k-th component of a joined name; a name that is not joined stands for itself. */
  function Component(s: string, k: nat): string {
    var parts := SplitNames(s);
    if |parts| == 1 then parts[0] else if k < |parts| then parts[k] else ""
  }
}

/** Names of loop variables: the front end writes the variable x also as v_x. */
module LoopNames {
  /** `_clean_var_name`. */
  function Clean(x: string): string {
    if |x| >= 2 && x[..2] == "v_" then x[2..] else x
  }

  /** A name with at most one `v_` in front. */
  predicate PlainName(x: string) { Clean(Clean(x)) == Clean(x) }
}
