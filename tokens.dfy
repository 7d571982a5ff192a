/** The token array produced by the JSMN tokenizer, the C integer conversions
    the walkers rely on, and the result of a walk. */
module Tokens {

  /** The token types of jsmn.h that a successful parse produces. */
  datatype Kind = Object | Array | String | Primitive

  /** A jsmntok_t: its type, the half-open span [start, end) of its text in the
      document, and its child count (key/value pairs for an object, elements
      for an array). */
  datatype Token = Token(kind: Kind, start: int, end: int, size: nat)

  /** A token with no children: a string or a primitive. */
  predicate Scalar(tok: Token) {
    tok.kind == String || tok.kind == Primitive
  }

  /** size_t on the platform the example targets (LP64): 64 bits. */
  const SizeModulus: int := 0x1_0000_0000_0000_0000
  /** int on that platform: 32 bits, two's complement. */
  const IntModulus: int := 0x1_0000_0000

  type Size = x: int | 0 <= x < SizeModulus

  /** A token's span lies inside the document text. */
  predicate SpanIn(js: string, tok: Token) {
    0 <= tok.start <= tok.end <= |js|
  }

  /** Every token of the buffer lies inside the document text: what the
      tokenizer guarantees of a completed parse. */
  predicate SpansIn(js: string, t: seq<Token>) {
    forall k :: 0 <= k < |t| ==> SpanIn(js, t[k])
  }

  lemma SpansInSuffix(js: string, t: seq<Token>, n: nat)
    requires SpansIn(js, t) && n <= |t|
    ensures SpansIn(js, t[n..])
  {
    forall k | 0 <= k < |t[n..]| ensures SpanIn(js, t[n..][k]) {
      assert t[n..][k] == t[n + k];
    }
  }

  /** The text a `%.*s` of the token prints: with the span's length as the
      precision, exactly the characters of the span, in order. */
  function Text(js: string, tok: Token): string
    requires SpanIn(js, tok)
  {
    js[tok.start..tok.end]
  }

  /** Conversion of an integer to int: keep the low 32 bits, two's complement. */
  function ToInt(x: int): (r: int)
    ensures -IntModulus / 2 <= r < IntModulus / 2
    ensures (x - r) % IntModulus == 0
    ensures -IntModulus / 2 <= x < IntModulus / 2 ==> r == x
  {
    var low := x % IntModulus;
    if low < IntModulus / 2 then low else low - IntModulus
  }

  /** Conversion of an int to size_t: reduce modulo 2^64. */
  function ToSize(x: int): (r: Size)
    ensures (x - r) % SizeModulus == 0
    ensures 0 <= x < SizeModulus ==> r == x
    ensures -SizeModulus <= x < 0 ==> r == x + SizeModulus
  {
    x % SizeModulus
  }

  /** `int len = count - (i + 1) - 1;` with a size_t count, then handed to a
      nested walker as its size_t count: the size_t difference wraps, the
      assignment keeps its low 32 bits as an int, the call widens it back. */
  function NestedLength(count: Size, i: int): (len: Size)
    ensures 0 <= count - i - 2 < IntModulus / 2 ==> len == count - i - 2
    ensures -IntModulus / 2 <= count - i - 2 < 0 ==> len == SizeModulus + count - i - 2
  {
    var diff := (count - (i + 1) - 1) % SizeModulus;
    assert -IntModulus / 2 <= count - i - 2 < 0 ==>
      diff == (IntModulus - 1) * IntModulus + (count - i - 2 + IntModulus);
    ToSize(ToInt(diff))
  }

  /** What a walker hands back: the cursor it returns together with what it
      printed, or, where seccomp.c would read a token past the end of the
      buffer, the output up to that read. */
  datatype Walk = Done(cursor: int, out: seq<string>) | OutOfBounds(out: seq<string>)

  /** The outcome of the outer loop of a walker over an array: the walk, and
      the countdown `num` of array elements still expected when it stopped. */
  datatype Elements = Elements(walk: Walk, left: int)

  const ObjectExpected := "Object expected\n"

  /** An output that does not open with the "Object expected" report. */
  predicate NoLeadingRejection(out: seq<string>) {
    out == [] || out[0] != ObjectExpected
  }

  /** The report line for a key no walker recognises. Its ensures is a
      helper fact (the line starts with 'U', not 'O') for the lemmas that
      show a walker never prints the "Object expected" report. */
  function UnexpectedKey(js: string, tok: Token): (line: string)
    requires SpanIn(js, tok)
    ensures line != ObjectExpected
  {
    var line := "Unexpected key: " + Text(js, tok) + "\n";
    assert line[0] != ObjectExpected[0];
    line
  }

  /** A recognised key at i whose value t[i+1] is printed between prefix and
      suffix; the cursor moves onto the value. */
  function KeyValue(js: string, t: seq<Token>, i: int, prefix: string, suffix: string): (w: Walk)
    requires SpansIn(js, t) && 0 <= i
    ensures w.OutOfBounds? <==> i + 1 >= |t|
    ensures w.OutOfBounds? ==> w.out == []
    ensures w.Done? ==> w.cursor == i + 1 && |w.out| == 1
  {
    if i + 1 >= |t| then OutOfBounds([]) else Done(i + 1, [prefix + Text(js, t[i + 1]) + suffix])
  }

  /** Helper for the same lemmas: a key's line never reads as the "Object
      expected" report when its prefix starts differently. */
  lemma KeyValueReportsOnly(js: string, t: seq<Token>, i: int, prefix: string, suffix: string)
    requires SpansIn(js, t) && 0 <= i
    requires prefix != [] && prefix[0] != ObjectExpected[0]
    ensures ObjectExpected !in KeyValue(js, t, i, prefix, suffix).out
  {
    if i + 1 < |t| {
      assert (prefix + Text(js, t[i + 1]) + suffix)[0] == prefix[0];
    }
  }
}
