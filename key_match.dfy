/** jsoneq: does a token spell a given key? */
module KeyMatch {
  import opened Tokens

  /** The character at k of a C string held in s: past the end of s reads
      the terminating NUL. */
  function CharAt(s: string, k: nat): char {
    if k < |s| then s[k] else '\0'
  }

  /** strncmp(a, b, n): compares at most n characters, stopping at the first
      difference or at a NUL both strings share; the sign of the result is
      the order of the first differing characters. */
  function StrNCmp(a: string, b: string, n: nat): int
    decreases n
  {
    if n == 0 then 0
    else if CharAt(a, 0) != CharAt(b, 0) then CharAt(a, 0) as int - CharAt(b, 0) as int
    else if CharAt(a, 0) == '\0' then 0
    else StrNCmp(a[1..], b[1..], n - 1)
  }

  /** Against a key of length n without NUL, strncmp over n characters is 0
      exactly when the first n characters of a are the key. */
  lemma {:induction false} StrNCmpZero(a: string, b: string, n: nat)
    requires n <= |a| && |b| == n
    requires '\0' !in b
    ensures StrNCmp(a, b, n) == 0 <==> a[..n] == b
  {
    if n > 0 {
      assert b[0] in b;
      StrNCmpZero(a[1..], b[1..], n - 1);
      assert a[..n] == [a[0]] + a[1..][..n - 1];
      assert b == [b[0]] + b[1..];
    }
  }

  /** The token is a string whose text is s. */
  predicate Spells(js: string, tok: Token, s: string)
    requires SpanIn(js, tok)
  {
    tok.kind == String && Text(js, tok) == s
  }

  /** jsoneq(json, tok, s) for a key s without NUL, whose strlen is |s|: 0
      when the token is a string as long as s whose characters strncmp finds
      equal to those of s, -1 otherwise. */
  function JsonEq(js: string, tok: Token, s: string): (r: int)
    requires SpanIn(js, tok)
    requires '\0' !in s
    ensures r == 0 || r == -1
  {
    if tok.kind == String && |s| == tok.end - tok.start && StrNCmp(js[tok.start..], s, tok.end - tok.start) == 0 then 0
    else -1
  }

  /** jsoneq returns 0 exactly when the token is a string whose text is the key. */
  lemma JsonEqSpells(js: string, tok: Token, s: string)
    requires SpanIn(js, tok)
    requires '\0' !in s
    ensures JsonEq(js, tok, s) == 0 <==> Spells(js, tok, s)
  {
    if tok.kind == String && |s| == tok.end - tok.start {
      StrNCmpZero(js[tok.start..], s, tok.end - tok.start);
      assert js[tok.start..][..tok.end - tok.start] == Text(js, tok);
    }
  }
}
