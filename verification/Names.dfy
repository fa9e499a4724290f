/** Path names as strtok and strsep cut them. */
module Names {
  type Path = seq<string>

  const SLASH: char := '/'

  /** The number of characters before the first slash. */
  function Until(s: string): (n: nat)
    ensures n <= |s| && (forall i | 0 <= i < n :: s[i] != SLASH) && (n < |s| ==> s[n] == SLASH)
  {
    if s == "" || s[0] == SLASH then 0 else 1 + Until(s[1..])
  }

  /** Every piece strtok(s, "/") gives, one call after the other. */
  function Tokens(s: string): (t: Path)
    ensures forall i | 0 <= i < |t| :: t[i] != "" && SLASH !in t[i]
    decreases |s|
  {
    if s == "" then []
    else if s[0] == SLASH then Tokens(s[1..])
    else [s[..Until(s)]] + Tokens(s[Until(s)..])
  }

  lemma {:induction false} UntilOf(name: string, rest: string)
    requires SLASH !in name && (rest == "" || rest[0] == SLASH)
    ensures Until(name + rest) == |name|
  {
    if name == "" {
      assert name + rest == rest;
    } else {
      assert (name + rest)[1..] == name[1..] + rest;
      UntilOf(name[1..], rest);
    }
  }

  /** Names, each after a slash. */
  function Join(p: Path): string { if p == [] then "" else Join(p[..|p| - 1]) + [SLASH] + p[|p| - 1] }

  /** What can stand between two slashes. */
  predicate Components(p: Path) { forall i | 0 <= i < |p| :: p[i] != "" && SLASH !in p[i] }

  /** Cutting at a slash between two strings. */
  lemma {:induction false} TokensConcat(a: string, b: string)
    ensures Tokens(a + [SLASH] + b) == Tokens(a) + Tokens(b)
    decreases |a|
  {
    var s := a + [SLASH] + b;
    if a == "" {
      assert s[1..] == b;
    } else if a[0] == SLASH {
      assert s[1..] == a[1..] + [SLASH] + b;
      TokensConcat(a[1..], b);
    } else {
      var n := Until(a);
      var name, rest := a[..n], a[n..] + [SLASH] + b;
      assert s == name + rest;
      UntilOf(name, rest);
      TokensConcat(a[n..], b);
      assert s[..n] == name && s[n..] == rest;
    }
  }

  lemma TokensOne(name: string)
    requires name != "" && SLASH !in name
    ensures Tokens(name) == [name]
  {
    assert name + "" == name;
    UntilOf(name, "");
    assert name[0] in name;
    assert name[..|name|] == name;
  }

  /** Cutting what was put together. */
  lemma {:induction false} TokensJoin(p: Path)
    requires Components(p)
    ensures Tokens(Join(p)) == p
    decreases |p|
  {
    if p != [] {
      var front, name := p[..|p| - 1], p[|p| - 1];
      TokensJoin(front);
      TokensConcat(Join(front), name);
      TokensOne(name);
      assert p == front + [name];
    }
  }

  lemma {:induction false} JoinStarts(p: Path)
    ensures p != [] ==> Join(p) != "" && Join(p)[0] == SLASH
    decreases |p|
  {
    if p != [] { JoinStarts(p[..|p| - 1]); }
  }
}
