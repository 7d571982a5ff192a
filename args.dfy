/** print_args: the walker over a syscall rule's array of argument objects. */
module Args {
  import opened Tokens
  import opened KeyMatch

  /** The body of the key loop for the key at cursor i: the cursor before the
      loop step, and what the body prints. */
  function ArgsKey(js: string, t: seq<Token>, i: int): (w: Walk)
    requires SpansIn(js, t) && 0 <= i
    ensures w.Done? ==> i <= w.cursor
  {
    if i >= |t| then OutOfBounds([])
    else if JsonEq(js, t[i], "index") == 0 then KeyValue(js, t, i, "\t\tindex: ", "")
    else if JsonEq(js, t[i], "value") == 0 then KeyValue(js, t, i, "\tvalue: ", "")
    else if JsonEq(js, t[i], "valueTwo") == 0 then KeyValue(js, t, i, "\tvalueTwo: ", "")
    else if JsonEq(js, t[i], "op") == 0 then KeyValue(js, t, i, "\top: ", "\n")
    else Done(i, [UnexpectedKey(js, t[i])])
  }

  /** The key loop over an argument object of `size` pairs, from iteration j
      with cursor i, having printed out so far. */
  function ArgsPairs(js: string, t: seq<Token>, i: int, j: nat, size: nat, out: seq<string>): (w: Walk)
    requires SpansIn(js, t) && 0 <= i
    ensures w.Done? ==> i <= w.cursor
    decreases size - j
  {
    if j >= size then Done(i, out)
    else
      var k := ArgsKey(js, t, i);
      if k.OutOfBounds? then OutOfBounds(out + k.out)
      else ArgsPairs(js, t, k.cursor + 1, j + 1, size, out + k.out)
  }

  /** The element loop from cursor i with `num` elements still expected,
      having printed out so far. */
  function ArgsElements(js: string, t: seq<Token>, count: Size, i: int, num: nat, out: seq<string>): (r: Elements)
    requires SpansIn(js, t) && 1 <= i
    ensures r.walk.Done? ==> i <= r.walk.cursor
    decreases |t| - i
  {
    if !(i < count && num > 0) then Elements(Done(i, out), num)
    else if i >= |t| then Elements(OutOfBounds(out), num)
    else if t[i].kind == Object then
      var w := ArgsPairs(js, t, i + 1, 0, t[i].size, out);
      if w.OutOfBounds? then Elements(w, num - 1)
      else ArgsElements(js, t, count, w.cursor, num - 1, w.out)
    else ArgsElements(js, t, count, i + 1, num, out + [UnexpectedKey(js, t[i])])
  }

  /** print_args(js, t, count): what it prints and the cursor it returns,
      which is at least 1 (a caller adding it to its own cursor moves on). */
  function Args(js: string, t: seq<Token>, count: Size): (w: Walk)
    requires SpansIn(js, t)
    ensures w.Done? ==> 1 <= w.cursor
  {
    if count < 1 then Done(1, [ObjectExpected])
    else if |t| == 0 then OutOfBounds([])
    else if t[0].kind != Array then Done(1, [ObjectExpected])
    else ArgsElements(js, t, count, 1, t[0].size, []).walk
  }

  /** The body of print_args' key loop for the key at cursor i: prints the
      value of a recognised key and moves onto it, or reports the key. */
  method PrintArgKey(js: string, t: seq<Token>, i: int) returns (w: Walk)
    requires SpansIn(js, t) && 0 <= i
    ensures w == ArgsKey(js, t, i)
  {
    if i >= |t| {
      return OutOfBounds([]);
    }
    if JsonEq(js, t[i], "index") == 0 {
      return KeyValue(js, t, i, "\t\tindex: ", "");
    } else if JsonEq(js, t[i], "value") == 0 {
      return KeyValue(js, t, i, "\tvalue: ", "");
    } else if JsonEq(js, t[i], "valueTwo") == 0 {
      return KeyValue(js, t, i, "\tvalueTwo: ", "");
    } else if JsonEq(js, t[i], "op") == 0 {
      return KeyValue(js, t, i, "\top: ", "\n");
    } else {
      return Done(i, [UnexpectedKey(js, t[i])]);
    }
  }

  /** One turn of the key loop: the body for the key at i, then the loop step. */
  lemma ArgsPairsStep(js: string, t: seq<Token>, i: int, j: nat, size: nat, out: seq<string>)
    requires SpansIn(js, t) && 0 <= i && j < size
    ensures var k := ArgsKey(js, t, i);
      ArgsPairs(js, t, i, j, size, out) ==
        if k.OutOfBounds? then OutOfBounds(out + k.out) else ArgsPairs(js, t, k.cursor + 1, j + 1, size, out + k.out)
  {
  }

  /** The key loop of print_args over one element object of objectSize
      pairs, entered with the cursor on its first key. */
  method PrintArgObject(js: string, t: seq<Token>, first: int, objectSize: nat, printed: seq<string>) returns (w: Walk)
    requires SpansIn(js, t) && 0 <= first
    ensures w == ArgsPairs(js, t, first, 0, objectSize, printed)
  {
    var i, out := first, printed;
    var j := 0;
    ghost var whole := ArgsPairs(js, t, first, 0, objectSize, printed);
    while j < objectSize
      invariant 0 <= i && j <= objectSize
      invariant ArgsPairs(js, t, i, j, objectSize, out) == whole
    {
      var key := PrintArgKey(js, t, i);
      ArgsPairsStep(js, t, i, j, objectSize, out);
      if key.OutOfBounds? {
        return OutOfBounds(out + key.out);
      }
      i, j, out := key.cursor + 1, j + 1, out + key.out;
    }
    assert ArgsPairs(js, t, i, j, objectSize, out) == Done(i, out);
    return Done(i, out);
  }

  /** print_args as seccomp.c runs it: a cursor i over the tokens, a
      countdown num of the array's elements, and the key loop over each
      element object. */
  method PrintArgs(js: string, t: seq<Token>, count: Size) returns (w: Walk)
    requires SpansIn(js, t)
    ensures w == Args(js, t, count)
  {
    if count < 1 {
      return Done(1, [ObjectExpected]);
    }
    if |t| == 0 {
      return OutOfBounds([]);
    }
    if t[0].kind != Array {
      return Done(1, [ObjectExpected]);
    }
    var num := t[0].size;
    var out: seq<string> := [];
    var i := 1;
    while i < count && num > 0
      invariant 1 <= i
      invariant ArgsElements(js, t, count, i, num, out) == ArgsElements(js, t, count, 1, t[0].size, [])
      decreases |t| - i
    {
      if i >= |t| {
        return OutOfBounds(out);
      }
      if t[i].kind == Object {
        var objectSize := t[i].size;
        num := num - 1;
        i := i + 1;
        var pairs := PrintArgObject(js, t, i, objectSize, out);
        assert ArgsElements(js, t, count, i - 1, num + 1, out) ==
          if pairs.OutOfBounds? then Elements(pairs, num) else ArgsElements(js, t, count, pairs.cursor, num, pairs.out);
        if pairs.OutOfBounds? {
          return pairs;
        }
        i, out := pairs.cursor, pairs.out;
      } else {
        assert ArgsElements(js, t, count, i, num, out) == ArgsElements(js, t, count, i + 1, num, out + [UnexpectedKey(js, t[i])]);
        out := out + [UnexpectedKey(js, t[i])];
        i := i + 1;
      }
    }
    return Done(i, out);
  }

  // Properties of print_args

  /** One of the four keys an argument object may carry. */
  predicate IsArgKey(js: string, tok: Token)
    requires SpanIn(js, tok)
  {
    Spells(js, tok, "index") || Spells(js, tok, "value") || Spells(js, tok, "valueTwo") || Spells(js, tok, "op")
  }

  /** A recognised key prints one line with its value and moves the cursor
      onto the value (only "op" ends its line); any other token at the cursor
      is reported as an unexpected key and the cursor stays on it, so the
      loop step moves past that token only. */
  lemma ArgsKeyCases(js: string, t: seq<Token>, i: nat)
    requires SpansIn(js, t) && i < |t|
    ensures Spells(js, t[i], "index") && i + 1 < |t| ==>
      ArgsKey(js, t, i) == Done(i + 1, ["\t\tindex: " + Text(js, t[i + 1])])
    ensures Spells(js, t[i], "value") && i + 1 < |t| ==>
      ArgsKey(js, t, i) == Done(i + 1, ["\tvalue: " + Text(js, t[i + 1])])
    ensures Spells(js, t[i], "valueTwo") && i + 1 < |t| ==>
      ArgsKey(js, t, i) == Done(i + 1, ["\tvalueTwo: " + Text(js, t[i + 1])])
    ensures Spells(js, t[i], "op") && i + 1 < |t| ==>
      ArgsKey(js, t, i) == Done(i + 1, ["\top: " + Text(js, t[i + 1]) + "\n"])
    ensures IsArgKey(js, t[i]) && i + 1 < |t| ==>
      ArgsKey(js, t, i).Done? && ArgsKey(js, t, i).cursor == i + 1 && |ArgsKey(js, t, i).out| == 1
    ensures !IsArgKey(js, t[i]) ==> ArgsKey(js, t, i) == Done(i, [UnexpectedKey(js, t[i])])
  {
    JsonEqSpells(js, t[i], "index");
    JsonEqSpells(js, t[i], "value");
    JsonEqSpells(js, t[i], "valueTwo");
    JsonEqSpells(js, t[i], "op");
    if i + 1 < |t| {
      var text := Text(js, t[i + 1]);
      assert "\t\tindex: " + text + "" == "\t\tindex: " + text;
      assert "\tvalue: " + text + "" == "\tvalue: " + text;
      assert "\tvalueTwo: " + text + "" == "\tvalueTwo: " + text;
    }
  }

  /** A recognised key that is the last token of the buffer: the body reads
      its value outside the buffer before printing anything. */
  lemma ArgsKeyPastBuffer(js: string, t: seq<Token>, i: nat)
    requires SpansIn(js, t) && i < |t| && IsArgKey(js, t[i]) && i + 1 >= |t|
    ensures ArgsKey(js, t, i) == OutOfBounds([])
  {
    JsonEqSpells(js, t[i], "index");
    JsonEqSpells(js, t[i], "value");
    JsonEqSpells(js, t[i], "valueTwo");
    JsonEqSpells(js, t[i], "op");
  }

  lemma ArgsKeyReportsOnly(js: string, t: seq<Token>, i: int)
    requires SpansIn(js, t) && 0 <= i
    ensures ObjectExpected !in ArgsKey(js, t, i).out
  {
    KeyValueReportsOnly(js, t, i, "\t\tindex: ", "");
    KeyValueReportsOnly(js, t, i, "\tvalue: ", "");
    KeyValueReportsOnly(js, t, i, "\tvalueTwo: ", "");
    KeyValueReportsOnly(js, t, i, "\top: ", "\n");
  }

  lemma {:induction false} ArgsPairsReportsOnly(js: string, t: seq<Token>, i: int, j: nat, size: nat, out: seq<string>)
    requires SpansIn(js, t) && 0 <= i && ObjectExpected !in out
    ensures ObjectExpected !in ArgsPairs(js, t, i, j, size, out).out
    decreases size - j
  {
    if j < size {
      var k := ArgsKey(js, t, i);
      ArgsKeyReportsOnly(js, t, i);
      if k.Done? {
        ArgsPairsReportsOnly(js, t, k.cursor + 1, j + 1, size, out + k.out);
      }
    }
  }

  lemma {:induction false} ArgsElementsReportsOnly(js: string, t: seq<Token>, count: Size, i: int, num: nat, out: seq<string>)
    requires SpansIn(js, t) && 1 <= i && ObjectExpected !in out
    ensures ObjectExpected !in ArgsElements(js, t, count, i, num, out).walk.out
    decreases |t| - i
  {
    if i < count && num > 0 && i < |t| {
      if t[i].kind == Object {
        var w := ArgsPairs(js, t, i + 1, 0, t[i].size, out);
        ArgsPairsReportsOnly(js, t, i + 1, 0, t[i].size, out);
        if w.Done? {
          ArgsElementsReportsOnly(js, t, count, w.cursor, num - 1, w.out);
        }
      } else {
        ArgsElementsReportsOnly(js, t, count, i + 1, num, out + [UnexpectedKey(js, t[i])]);
      }
    }
  }

  /** print_args prints only "Object expected" and returns 1 exactly when
      count is 0 or its first token is not an array. */
  lemma ArgsRejects(js: string, t: seq<Token>, count: Size)
    requires SpansIn(js, t)
    ensures Args(js, t, count) == Done(1, [ObjectExpected]) <==> count < 1 || (|t| > 0 && t[0].kind != Array)
  {
    if count >= 1 && |t| > 0 && t[0].kind == Array {
      ArgsElementsReportsOnly(js, t, count, 1, t[0].size, []);
      assert ObjectExpected in [ObjectExpected];
    }
  }

  /** The countdown num of the element loop: it never goes below zero nor
      above its start, and the loop ends with it at zero unless the cursor
      has reached count. Its second ensures is a one-step unfolding kept as a
      helper for the lemmas below: a token that is not an object is reported
      and leaves the countdown as it is. */
  lemma {:induction false} ArgsCountdown(js: string, t: seq<Token>, count: Size, i: int, num: nat, out: seq<string>)
    requires SpansIn(js, t) && 1 <= i
    ensures var r := ArgsElements(js, t, count, i, num, out);
      r.walk.Done? ==> 0 <= r.left <= num && (r.left == 0 || r.walk.cursor >= count)
    ensures i < count && num > 0 && i < |t| && t[i].kind != Object ==>
      ArgsElements(js, t, count, i, num, out) == ArgsElements(js, t, count, i + 1, num, out + [UnexpectedKey(js, t[i])])
    decreases |t| - i
  {
    if i < count && num > 0 && i < |t| {
      if t[i].kind == Object {
        var w := ArgsPairs(js, t, i + 1, 0, t[i].size, out);
        if w.Done? {
          ArgsCountdown(js, t, count, w.cursor, num - 1, w.out);
        }
      } else {
        ArgsCountdown(js, t, count, i + 1, num, out + [UnexpectedKey(js, t[i])]);
      }
    }
  }

  // A well-formed argument array: objects whose pairs are recognised keys
  // with scalar values, laid out one after the other.

  /** The q-th pair of the object at p is a recognised key with a scalar value. */
  predicate ArgPairAt(js: string, t: seq<Token>, p: nat, q: nat)
    requires SpansIn(js, t)
  {
    p + 2 + 2 * q < |t| && IsArgKey(js, t[p + 1 + 2 * q]) && Scalar(t[p + 2 + 2 * q])
  }

  /** An argument object at p: all its pairs are recognised keys with scalar values. */
  predicate ArgObjectAt(js: string, t: seq<Token>, p: nat)
    requires SpansIn(js, t)
  {
    p < |t| && t[p].kind == Object && forall q :: 0 <= q < t[p].size ==> ArgPairAt(js, t, p, q)
  }

  /** The first token after the flat object at p. */
  function ObjectEnd(t: seq<Token>, p: nat): nat
    requires p < |t|
  {
    p + 1 + 2 * t[p].size
  }

  /** n argument objects one after the other from p, each starting before count. */
  predicate ArgObjectsFrom(js: string, t: seq<Token>, p: nat, n: nat, count: Size)
    requires SpansIn(js, t)
    decreases n
  {
    n == 0 || (p < count && ArgObjectAt(js, t, p) && ArgObjectsFrom(js, t, ObjectEnd(t, p), n - 1, count))
  }

  /** The first token after n argument objects from p. */
  function ObjectsEnd(js: string, t: seq<Token>, p: nat, n: nat, count: Size): nat
    requires SpansIn(js, t) && ArgObjectsFrom(js, t, p, n, count)
    decreases n
  {
    if n == 0 then p else ObjectsEnd(js, t, ObjectEnd(t, p), n - 1, count)
  }

  /** The line print_args prints for the recognised key at k and its value:
      the key's label and the value's text, with a newline after "op" only. */
  function ArgLine(js: string, t: seq<Token>, k: nat): string
    requires SpansIn(js, t) && k + 1 < |t| && IsArgKey(js, t[k])
  {
    var v := Text(js, t[k + 1]);
    if Spells(js, t[k], "index") then "\t\tindex: " + v
    else if Spells(js, t[k], "value") then "\tvalue: " + v
    else if Spells(js, t[k], "valueTwo") then "\tvalueTwo: " + v
    else "\top: " + v + "\n"
  }

  /** What print_args prints for the argument object at p: one line per
      pair, in order. */
  function ArgObjectLines(js: string, t: seq<Token>, p: nat): (lines: seq<string>)
    requires SpansIn(js, t) && ArgObjectAt(js, t, p)
    ensures |lines| == t[p].size
  {
    seq(t[p].size, q requires 0 <= q < t[p].size && ArgPairAt(js, t, p, q) => ArgLine(js, t, p + 1 + 2 * q))
  }

  /** What print_args prints for n argument objects from p. */
  function ObjectsLines(js: string, t: seq<Token>, p: nat, n: nat, count: Size): seq<string>
    requires SpansIn(js, t) && ArgObjectsFrom(js, t, p, n, count)
    decreases n
  {
    if n == 0 then [] else ArgObjectLines(js, t, p) + ObjectsLines(js, t, ObjectEnd(t, p), n - 1, count)
  }

  // The same lines appended one pair at a time to what was printed before,
  // the order in which the loops print them.

  function PairsOut(js: string, t: seq<Token>, p: nat, j: nat, out: seq<string>): seq<string>
    requires SpansIn(js, t) && ArgObjectAt(js, t, p) && j <= t[p].size
    decreases t[p].size - j
  {
    if j == t[p].size then out
    else
      assert ArgPairAt(js, t, p, j);
      PairsOut(js, t, p, j + 1, out + [ArgLine(js, t, p + 1 + 2 * j)])
  }

  function ObjectsOut(js: string, t: seq<Token>, p: nat, n: nat, count: Size, out: seq<string>): seq<string>
    requires SpansIn(js, t) && ArgObjectsFrom(js, t, p, n, count)
    decreases n
  {
    if n == 0 then out else ObjectsOut(js, t, ObjectEnd(t, p), n - 1, count, PairsOut(js, t, p, 0, out))
  }

  lemma {:induction false} PairsOutLines(js: string, t: seq<Token>, p: nat, j: nat, out: seq<string>)
    requires SpansIn(js, t) && ArgObjectAt(js, t, p) && j <= t[p].size
    ensures PairsOut(js, t, p, j, out) == out + ArgObjectLines(js, t, p)[j..]
    decreases t[p].size - j
  {
    var lines := ArgObjectLines(js, t, p);
    if j < t[p].size {
      assert ArgPairAt(js, t, p, j);
      PairsOutLines(js, t, p, j + 1, out + [lines[j]]);
      assert lines[j..] == [lines[j]] + lines[j + 1..];
    } else {
      assert out + [] == out;
    }
  }

  lemma {:induction false} ObjectsOutLines(js: string, t: seq<Token>, p: nat, n: nat, count: Size, out: seq<string>)
    requires SpansIn(js, t) && ArgObjectsFrom(js, t, p, n, count)
    ensures ObjectsOut(js, t, p, n, count, out) == out + ObjectsLines(js, t, p, n, count)
    decreases n
  {
    if n > 0 {
      var lines := ArgObjectLines(js, t, p);
      var rest := ObjectsLines(js, t, ObjectEnd(t, p), n - 1, count);
      PairsOutLines(js, t, p, 0, out);
      assert lines[0..] == lines;
      ObjectsOutLines(js, t, ObjectEnd(t, p), n - 1, count, out + lines);
      assert out + lines + rest == out + (lines + rest);
    } else {
      assert out + [] == out;
    }
  }

  /** From pair j on, the key loop over a well-formed argument object prints
      the rest of the object's lines and ends right after the object. */
  lemma {:induction false} ArgsPairsLand(js: string, t: seq<Token>, p: nat, j: nat, out: seq<string>)
    requires SpansIn(js, t) && ArgObjectAt(js, t, p) && j <= t[p].size
    ensures var w := ArgsPairs(js, t, p + 1 + 2 * j, j, t[p].size, out);
      w.Done? && w.cursor == ObjectEnd(t, p) && w.out == PairsOut(js, t, p, j, out)
    decreases t[p].size - j
  {
    if j < t[p].size {
      var k := p + 1 + 2 * j;
      assert ArgPairAt(js, t, p, j);
      ArgsKeyCases(js, t, k);
      assert ArgsKey(js, t, k) == Done(k + 1, [ArgLine(js, t, k)]);
      ArgsPairsLand(js, t, p, j + 1, out + [ArgLine(js, t, k)]);
    }
  }

  /** The element loop over n well-formed argument objects prints their
      lines in order and ends right after the last, with num at 0. */
  lemma {:induction false} ArgsElementsLand(js: string, t: seq<Token>, count: Size, p: nat, n: nat, out: seq<string>)
    requires SpansIn(js, t) && 1 <= p && ArgObjectsFrom(js, t, p, n, count)
    ensures var r := ArgsElements(js, t, count, p, n, out);
      r.walk.Done? && r.walk.cursor == ObjectsEnd(js, t, p, n, count) && r.left == 0 &&
      r.walk.out == ObjectsOut(js, t, p, n, count, out)
    decreases n
  {
    if n > 0 {
      var w := ArgsPairs(js, t, p + 1, 0, t[p].size, out);
      ArgsPairsLand(js, t, p, 0, out);
      assert w == Done(ObjectEnd(t, p), PairsOut(js, t, p, 0, out));
      ArgsElementsLand(js, t, count, ObjectEnd(t, p), n - 1, w.out);
    }
  }

  /** On a well-formed argument array whose element objects all start before
      count, print_args prints the lines of its objects in order and returns
      exactly the number of tokens of the array: the cursor lands on the
      first token after it. */
  lemma ArgsLands(js: string, t: seq<Token>, count: Size)
    requires SpansIn(js, t) && 1 <= count && |t| > 0 && t[0].kind == Array
    requires ArgObjectsFrom(js, t, 1, t[0].size, count)
    ensures Args(js, t, count) ==
      Done(ObjectsEnd(js, t, 1, t[0].size, count), ObjectsLines(js, t, 1, t[0].size, count))
  {
    ArgsElementsLand(js, t, count, 1, t[0].size, []);
    ObjectsOutLines(js, t, 1, t[0].size, count, []);
    assert [] + ObjectsLines(js, t, 1, t[0].size, count) == ObjectsLines(js, t, 1, t[0].size, count);
  }
}
