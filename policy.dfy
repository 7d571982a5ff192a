/** print_seccomp: the walker over the root object of a policy document. */
module Policy {
  import opened Tokens
  import opened KeyMatch
  import Syscalls

  const ArchitecturesHeader := "architectures:\n"
  const SyscallsHeader := "syscalls:\n"

  /** The line printed for one architecture: the bullet, the token's text
      and a newline. */
  function Bullet(js: string, tok: Token): (line: string)
    requires SpanIn(js, tok)
    ensures |line| == 4 + (tok.end - tok.start) + 1
    ensures line[..4] == "  * " && line[|line| - 1] == '\n'
  {
    "  * " + Text(js, tok) + "\n"
  }

  /** The loop over the "architectures" array at i+1 of n elements, from
      element j, having printed out so far; element j is the token t[i+j+2].
      A completed loop is Done with its final counter. */
  function Bullets(js: string, t: seq<Token>, i: nat, j: nat, n: nat, out: seq<string>): (w: Walk)
    requires SpansIn(js, t)
    ensures |out| <= |w.out| && w.out[..|out|] == out
    ensures w.Done? ==> w.cursor == (if j <= n then n else j)
    ensures w.Done? && j <= n ==> |w.out| == |out| + (n - j)
    ensures w.OutOfBounds? ==> j < n
    decreases n - j
  {
    if j >= n then Done(j, out)
    else if i + j + 2 >= |t| then OutOfBounds(out)
    else Bullets(js, t, i, j + 1, n, out + [Bullet(js, t[i + j + 2])])
  }

  /** print_syscalls as a "syscalls" key at i calls it: on the tokens from its
      value t[i+1] on, with the length `count - (i + 1) - 1`. */
  function NestedSyscalls(js: string, t: seq<Token>, count: Size, i: nat): (w: Walk)
    requires SpansIn(js, t) && i + 1 < |t|
    ensures w.Done? ==> 1 <= w.cursor
  {
    SpansInSuffix(js, t, i + 1);
    Syscalls.Syscalls(js, t[i + 1..], NestedLength(count, i))
  }

  /** The body of the root loop for the key at cursor i: the cursor before the
      loop step, and what the body prints. */
  function PolicyKey(js: string, t: seq<Token>, count: Size, i: nat): (w: Walk)
    requires SpansIn(js, t) && i < |t|
    ensures w.Done? ==> i <= w.cursor
  {
    if JsonEq(js, t[i], "defaultAction") == 0 then KeyValue(js, t, i, "defaultAction: ", "\n")
    else if JsonEq(js, t[i], "architectures") == 0 then
      if i + 1 >= |t| then OutOfBounds([])
      else if t[i + 1].kind != Array then Done(i, [])
      else
        var b := Bullets(js, t, i, 0, t[i + 1].size, [ArchitecturesHeader]);
        if b.OutOfBounds? then b else Done(i + t[i + 1].size + 1, b.out)
    else if JsonEq(js, t[i], "syscalls") == 0 then
      if i + 1 >= |t| then OutOfBounds([])
      else if t[i + 1].kind != Array then Done(i, [])
      else
        var s := NestedSyscalls(js, t, count, i);
        if s.OutOfBounds? then OutOfBounds([SyscallsHeader] + s.out)
        else Done(i + s.cursor, [SyscallsHeader] + s.out)
    else Done(i, [UnexpectedKey(js, t[i])])
  }

  /** The root loop from cursor i, having printed out so far. */
  function PolicyLoop(js: string, t: seq<Token>, count: Size, i: nat, out: seq<string>): (w: Walk)
    requires SpansIn(js, t)
    ensures w.Done? ==> i <= w.cursor
    decreases |t| - i
  {
    if i >= count then Done(i, out)
    else if i >= |t| then OutOfBounds(out)
    else
      var k := PolicyKey(js, t, count, i);
      if k.OutOfBounds? then OutOfBounds(out + k.out)
      else PolicyLoop(js, t, count, k.cursor + 1, out + k.out)
  }

  /** print_seccomp(js, t, count): it rejects a document whose root is not an
      object (or an empty one, count 0) with the single report "Object
      expected" and returns 1; any document it walks to the end returns 0. */
  function Policy(js: string, t: seq<Token>, count: Size): (w: Walk)
    requires SpansIn(js, t)
    ensures count < 1 || (|t| > 0 && t[0].kind != Object) ==> w == Done(1, [ObjectExpected])
    ensures count >= 1 && !(|t| > 0 && t[0].kind != Object) && w.Done? ==> w.cursor == 0
  {
    if count < 1 then Done(1, [ObjectExpected])
    else if |t| == 0 then OutOfBounds([])
    else if t[0].kind != Object then Done(1, [ObjectExpected])
    else
      var w := PolicyLoop(js, t, count, 1, []);
      if w.OutOfBounds? then w else Done(0, w.out)
  }

  /** The body of print_seccomp's root loop for the key at cursor i, with the
      loop over the architectures in place. */
  method PrintPolicyKey(js: string, t: seq<Token>, count: Size, i: nat) returns (w: Walk)
    requires SpansIn(js, t) && i < |t|
    ensures w == PolicyKey(js, t, count, i)
  {
    if JsonEq(js, t[i], "defaultAction") == 0 {
      return KeyValue(js, t, i, "defaultAction: ", "\n");
    } else if JsonEq(js, t[i], "architectures") == 0 {
      if i + 1 >= |t| {
        return OutOfBounds([]);
      }
      if t[i + 1].kind != Array {
        return Done(i, []);
      }
      var out := [ArchitecturesHeader];
      var j := 0;
      while j < t[i + 1].size
        invariant j <= t[i + 1].size
        invariant Bullets(js, t, i, j, t[i + 1].size, out) == Bullets(js, t, i, 0, t[i + 1].size, [ArchitecturesHeader])
      {
        if i + j + 2 >= |t| {
          return OutOfBounds(out);
        }
        out := out + [Bullet(js, t[i + j + 2])];
        j := j + 1;
      }
      return Done(i + t[i + 1].size + 1, out);
    } else if JsonEq(js, t[i], "syscalls") == 0 {
      var len := NestedLength(count, i);
      if i + 1 >= |t| {
        return OutOfBounds([]);
      }
      if t[i + 1].kind != Array {
        return Done(i, []);
      }
      SpansInSuffix(js, t, i + 1);
      var ret := Syscalls.PrintSyscalls(js, t[i + 1..], len);
      if ret.OutOfBounds? {
        return OutOfBounds([SyscallsHeader] + ret.out);
      }
      return Done(i + ret.cursor, [SyscallsHeader] + ret.out);
    } else {
      return Done(i, [UnexpectedKey(js, t[i])]);
    }
  }

  /** One turn of the root loop: the body for the key at i, then the step. */
  lemma PolicyLoopStep(js: string, t: seq<Token>, count: Size, i: nat, out: seq<string>)
    requires SpansIn(js, t) && i < count && i < |t|
    ensures var k := PolicyKey(js, t, count, i);
      PolicyLoop(js, t, count, i, out) ==
        if k.OutOfBounds? then OutOfBounds(out + k.out) else PolicyLoop(js, t, count, k.cursor + 1, out + k.out)
  {
  }

  /** print_seccomp as seccomp.c runs it: a cursor i over the root object's
      tokens up to count. */
  method PrintSeccomp(js: string, t: seq<Token>, count: Size) returns (w: Walk)
    requires SpansIn(js, t)
    ensures w == Policy(js, t, count)
  {
    if count < 1 {
      return Done(1, [ObjectExpected]);
    }
    if |t| == 0 {
      return OutOfBounds([]);
    }
    if t[0].kind != Object {
      return Done(1, [ObjectExpected]);
    }
    var out: seq<string> := [];
    var i := 1;
    while i < count
      invariant 1 <= i
      invariant PolicyLoop(js, t, count, i, out) == PolicyLoop(js, t, count, 1, [])
      decreases |t| - i
    {
      if i >= |t| {
        return OutOfBounds(out);
      }
      var key := PrintPolicyKey(js, t, count, i);
      PolicyLoopStep(js, t, count, i, out);
      if key.OutOfBounds? {
        return OutOfBounds(out + key.out);
      }
      i, out := key.cursor + 1, out + key.out;
    }
    assert PolicyLoop(js, t, count, i, out) == Done(i, out);
    return Done(0, out);
  }

  // Properties of print_seccomp

  /** The lines the loop over an "architectures" array at i+1 of n elements
      prints: one bullet per element token, in order. */
  function ArchitectureList(js: string, t: seq<Token>, i: nat, n: nat): (lines: seq<string>)
    requires SpansIn(js, t) && i + n + 1 < |t|
    ensures |lines| == n
  {
    seq(n, k requires 0 <= k < n => Bullet(js, t[i + 2 + k]))
  }

  /** The loop over the architectures stays inside the buffer exactly when
      the array's elements do. */
  lemma {:induction false} BulletsInBuffer(js: string, t: seq<Token>, i: nat, j: nat, n: nat, out: seq<string>)
    requires SpansIn(js, t) && j <= n
    ensures Bullets(js, t, i, j, n, out).Done? <==> j == n || i + n + 1 < |t|
    decreases n - j
  {
    if j < n && i + j + 2 < |t| {
      BulletsInBuffer(js, t, i, j + 1, n, out + [Bullet(js, t[i + j + 2])]);
    }
  }

  /** From element j on, the loop prints the rest of the bullet list. */
  lemma {:induction false} BulletsLines(js: string, t: seq<Token>, i: nat, j: nat, n: nat, out: seq<string>)
    requires SpansIn(js, t) && j <= n && i + n + 1 < |t|
    ensures Bullets(js, t, i, j, n, out) == Done(n, out + ArchitectureList(js, t, i, n)[j..])
    decreases n - j
  {
    var list := ArchitectureList(js, t, i, n);
    if j < n {
      BulletsLines(js, t, i, j + 1, n, out + [Bullet(js, t[i + j + 2])]);
      assert list[j..] == [Bullet(js, t[i + j + 2])] + list[j + 1..];
    }
  }

  /** One of the three keys of the root object. */
  predicate IsPolicyKey(js: string, tok: Token)
    requires SpanIn(js, tok)
  {
    Spells(js, tok, "defaultAction") || Spells(js, tok, "architectures") || Spells(js, tok, "syscalls")
  }

  /** What the body does for each key: "defaultAction" prints its value and
      moves onto it; "architectures" or "syscalls" with a value that is not an
      array print nothing and leave the cursor on the key, so the loop step
      moves onto the value; "syscalls" with an array value prints the header
      and then exactly what print_syscalls prints for the tokens from the value
      on, and adds the cursor it returns to its own; any other key is
      reported and the cursor stays on it. */
  lemma PolicyKeyCases(js: string, t: seq<Token>, count: Size, i: nat)
    requires SpansIn(js, t) && i < |t|
    ensures Spells(js, t[i], "defaultAction") && i + 1 < |t| ==>
      PolicyKey(js, t, count, i) == Done(i + 1, ["defaultAction: " + Text(js, t[i + 1]) + "\n"])
    ensures (Spells(js, t[i], "architectures") || Spells(js, t[i], "syscalls")) && i + 1 < |t| && t[i + 1].kind != Array ==>
      PolicyKey(js, t, count, i) == Done(i, [])
    ensures Spells(js, t[i], "syscalls") && i + 1 < |t| && t[i + 1].kind == Array ==>
      var s := NestedSyscalls(js, t, count, i);
      PolicyKey(js, t, count, i) ==
        if s.OutOfBounds? then OutOfBounds([SyscallsHeader] + s.out) else Done(i + s.cursor, [SyscallsHeader] + s.out)
    ensures !IsPolicyKey(js, t[i]) ==> PolicyKey(js, t, count, i) == Done(i, [UnexpectedKey(js, t[i])])
  {
    JsonEqSpells(js, t[i], "defaultAction");
    JsonEqSpells(js, t[i], "architectures");
    JsonEqSpells(js, t[i], "syscalls");
  }

  /** A recognised key that is the last token of the buffer: the body reads
      its value outside the buffer before printing anything. */
  lemma PolicyKeyPastBuffer(js: string, t: seq<Token>, count: Size, i: nat)
    requires SpansIn(js, t) && i < |t| && IsPolicyKey(js, t[i]) && i + 1 >= |t|
    ensures PolicyKey(js, t, count, i) == OutOfBounds([])
  {
    JsonEqSpells(js, t[i], "defaultAction");
    JsonEqSpells(js, t[i], "architectures");
    JsonEqSpells(js, t[i], "syscalls");
  }

  /** An "architectures" key with an array value of n elements prints the
      header and one bullet per element, and moves the cursor past the key,
      the array and its n elements; when the elements run past the end of the
      buffer seccomp.c reads outside it. */
  lemma ArchitecturesLines(js: string, t: seq<Token>, count: Size, i: nat)
    requires SpansIn(js, t) && i + 1 < |t| && Spells(js, t[i], "architectures") && t[i + 1].kind == Array
    ensures i + t[i + 1].size + 1 < |t| ==>
      PolicyKey(js, t, count, i) ==
        Done(i + t[i + 1].size + 1, [ArchitecturesHeader] + ArchitectureList(js, t, i, t[i + 1].size))
    ensures i + t[i + 1].size + 1 >= |t| ==> PolicyKey(js, t, count, i).OutOfBounds?
  {
    JsonEqSpells(js, t[i], "defaultAction");
    JsonEqSpells(js, t[i], "architectures");
    var n := t[i + 1].size;
    BulletsInBuffer(js, t, i, 0, n, [ArchitecturesHeader]);
    if i + n + 1 < |t| {
      BulletsLines(js, t, i, 0, n, [ArchitecturesHeader]);
      assert ArchitectureList(js, t, i, n)[0..] == ArchitectureList(js, t, i, n);
    }
  }

  /** The value after the "syscalls" key at k is a rule array that
      print_syscalls, handed the length seccomp.c computes, walks to its end. */
  predicate SyscallsArrayAt(js: string, t: seq<Token>, count: Size, k: nat)
    requires SpansIn(js, t)
  {
    k + 1 < |t| && t[k + 1].kind == Array && 1 <= NestedLength(count, k) &&
    (SpansInSuffix(js, t, k + 1);
     Syscalls.RulesFrom(js, t[k + 1..], NestedLength(count, k), 1, t[k + 1].size))
  }

  /** The first token after that rule array. */
  function SyscallsArrayEnd(js: string, t: seq<Token>, count: Size, k: nat): nat
    requires SpansIn(js, t) && SyscallsArrayAt(js, t, count, k)
  {
    SpansInSuffix(js, t, k + 1);
    k + 1 + Syscalls.RulesEnd(js, t[k + 1..], NestedLength(count, k), 1, t[k + 1].size)
  }

  /** For a "syscalls" key whose value is a well-formed rule array, the body
      prints the header and the lines of the rules, and the cursor
      print_syscalls returns, added to the key's cursor, puts the loop step on
      the first token after the array. */
  lemma SyscallsValueLands(js: string, t: seq<Token>, count: Size, i: nat)
    requires SpansIn(js, t) && i < |t| && Spells(js, t[i], "syscalls") && SyscallsArrayAt(js, t, count, i)
    ensures SpansIn(js, t[i + 1..])
    ensures PolicyKey(js, t, count, i) ==
      Done(SyscallsArrayEnd(js, t, count, i) - 1,
           [SyscallsHeader] + Syscalls.RulesOut(js, t[i + 1..], NestedLength(count, i), 1, t[i + 1].size, []))
  {
    PolicyKeyCases(js, t, count, i);
    SpansInSuffix(js, t, i + 1);
    var u := t[i + 1..];
    assert u[0] == t[i + 1];
    Syscalls.SyscallsLands(js, u, NestedLength(count, i));
  }

  // A well-formed root object: pairs the root loop walks one after the other.

  /** The pair at k is "defaultAction" with a scalar value, "architectures"
      with an array whose elements lie inside the buffer, or "syscalls" with
      a well-formed rule array. */
  predicate RootPairAt(js: string, t: seq<Token>, count: Size, k: nat)
    requires SpansIn(js, t)
  {
    k + 1 < |t| &&
    if Spells(js, t[k], "defaultAction") then Scalar(t[k + 1])
    else if Spells(js, t[k], "architectures") then t[k + 1].kind == Array && k + t[k + 1].size + 1 < |t|
    else Spells(js, t[k], "syscalls") && SyscallsArrayAt(js, t, count, k)
  }

  /** The key of the pair after the well-formed pair at k. */
  function NextRootPair(js: string, t: seq<Token>, count: Size, k: nat): nat
    requires SpansIn(js, t) && RootPairAt(js, t, count, k)
  {
    if Spells(js, t[k], "defaultAction") then k + 2
    else if Spells(js, t[k], "architectures") then k + t[k + 1].size + 2
    else SyscallsArrayEnd(js, t, count, k)
  }

  /** What print_seccomp prints for the well-formed pair at k: the
      "defaultAction" line, the architectures header and bullets, or the
      syscalls header followed by the lines of the rules. */
  function RootPairLines(js: string, t: seq<Token>, count: Size, k: nat): seq<string>
    requires SpansIn(js, t) && RootPairAt(js, t, count, k)
  {
    SpansInSuffix(js, t, k + 1);
    if Spells(js, t[k], "defaultAction") then ["defaultAction: " + Text(js, t[k + 1]) + "\n"]
    else if Spells(js, t[k], "architectures") then [ArchitecturesHeader] + ArchitectureList(js, t, k, t[k + 1].size)
    else [SyscallsHeader] + Syscalls.RulesOut(js, t[k + 1..], NestedLength(count, k), 1, t[k + 1].size, [])
  }

  /** m well-formed root pairs from the key at k, each starting before count. */
  predicate RootPairs(js: string, t: seq<Token>, count: Size, k: nat, m: nat)
    requires SpansIn(js, t)
    decreases m
  {
    m == 0 || (k < count && RootPairAt(js, t, count, k) && RootPairs(js, t, count, NextRootPair(js, t, count, k), m - 1))
  }

  /** The first token after those m pairs. */
  function RootPairsEnd(js: string, t: seq<Token>, count: Size, k: nat, m: nat): nat
    requires SpansIn(js, t) && RootPairs(js, t, count, k, m)
    decreases m
  {
    if m == 0 then k else RootPairsEnd(js, t, count, NextRootPair(js, t, count, k), m - 1)
  }

  /** What print_seccomp prints after out for m well-formed root pairs from
      the key at k: the lines of each pair, pair after pair. */
  function RootOut(js: string, t: seq<Token>, count: Size, k: nat, m: nat, out: seq<string>): seq<string>
    requires SpansIn(js, t) && RootPairs(js, t, count, k, m)
    decreases m
  {
    if m == 0 then out
    else RootOut(js, t, count, NextRootPair(js, t, count, k), m - 1, out + RootPairLines(js, t, count, k))
  }

  /** The body for a well-formed root pair prints the pair's lines and moves
      the cursor so that the loop step lands on the next pair's key. */
  lemma RootKeyLands(js: string, t: seq<Token>, count: Size, k: nat)
    requires SpansIn(js, t) && RootPairAt(js, t, count, k)
    ensures PolicyKey(js, t, count, k) == Done(NextRootPair(js, t, count, k) - 1, RootPairLines(js, t, count, k))
  {
    PolicyKeyCases(js, t, count, k);
    if Spells(js, t[k], "architectures") {
      ArchitecturesLines(js, t, count, k);
    } else if !Spells(js, t[k], "defaultAction") {
      SyscallsValueLands(js, t, count, k);
    }
  }

  /** One turn of the root loop on a well-formed pair: its lines, then the
      next pair's key. */
  lemma RootStep(js: string, t: seq<Token>, count: Size, k: nat, out: seq<string>)
    requires SpansIn(js, t) && k < count && RootPairAt(js, t, count, k)
    ensures PolicyLoop(js, t, count, k, out) ==
      PolicyLoop(js, t, count, NextRootPair(js, t, count, k), out + RootPairLines(js, t, count, k))
  {
    var next, lines := NextRootPair(js, t, count, k), RootPairLines(js, t, count, k);
    RootKeyLands(js, t, count, k);
    assert PolicyKey(js, t, count, k) == Done(next - 1, lines);
    PolicyLoopStep(js, t, count, k, out);
  }

  /** The keys of m well-formed root pairs from the key at k, in order. */
  ghost function RootKeys(js: string, t: seq<Token>, count: Size, k: nat, m: nat): (ks: seq<nat>)
    requires SpansIn(js, t) && RootPairs(js, t, count, k, m)
    ensures |ks| == m
    decreases m
  {
    if m == 0 then [] else [k] + RootKeys(js, t, count, NextRootPair(js, t, count, k), m - 1)
  }

  /** The lines of those pairs, pair by pair. */
  ghost function RootLines(js: string, t: seq<Token>, count: Size, k: nat, m: nat): (ls: seq<seq<string>>)
    requires SpansIn(js, t) && RootPairs(js, t, count, k, m)
    ensures |ls| == m
    decreases m
  {
    if m == 0 then [] else [RootPairLines(js, t, count, k)] + RootLines(js, t, count, NextRootPair(js, t, count, k), m - 1)
  }

  /** out followed by the groups of lines ls, in order. */
  function Printed(out: seq<string>, ls: seq<seq<string>>): seq<string>
    decreases |ls|
  {
    if ls == [] then out else Printed(out + ls[0], ls[1..])
  }

  /** The root loop run from key ks[i] prints ls[i] and carries on from the
      next key, or from end after the last one. */
  ghost predicate LoopSteps(js: string, t: seq<Token>, count: Size, ks: seq<nat>, ls: seq<seq<string>>, end: nat)
    requires SpansIn(js, t)
    decreases |ks|
  {
    |ks| == |ls| &&
    (ks == [] ||
     ((forall o :: PolicyLoop(js, t, count, ks[0], o) == PolicyLoop(js, t, count, if |ks| == 1 then end else ks[1], o + ls[0])) &&
      LoopSteps(js, t, count, ks[1..], ls[1..], end)))
  }

  /** Steps chained: from the first key the loop prints every group and
      carries on from end. */
  lemma {:induction false} LoopChain(js: string, t: seq<Token>, count: Size, ks: seq<nat>, ls: seq<seq<string>>, end: nat, out: seq<string>)
    requires SpansIn(js, t) && LoopSteps(js, t, count, ks, ls, end)
    ensures PolicyLoop(js, t, count, if ks == [] then end else ks[0], out) == PolicyLoop(js, t, count, end, Printed(out, ls))
    decreases |ks|
  {
    if ks != [] {
      LoopChain(js, t, count, ks[1..], ls[1..], end, out + ls[0]);
    }
  }

  /** m well-formed root pairs are m steps of the root loop. */
  lemma {:induction false} RootSteps(js: string, t: seq<Token>, count: Size, k: nat, m: nat)
    requires SpansIn(js, t) && RootPairs(js, t, count, k, m)
    ensures LoopSteps(js, t, count, RootKeys(js, t, count, k, m), RootLines(js, t, count, k, m), RootPairsEnd(js, t, count, k, m))
    ensures forall out :: Printed(out, RootLines(js, t, count, k, m)) == RootOut(js, t, count, k, m, out)
    ensures m > 0 ==> RootKeys(js, t, count, k, m)[0] == k
    decreases m
  {
    if m > 0 {
      var next := NextRootPair(js, t, count, k);
      forall o ensures PolicyLoop(js, t, count, k, o) == PolicyLoop(js, t, count, next, o + RootPairLines(js, t, count, k)) {
        RootStep(js, t, count, k, o);
      }
      RootSteps(js, t, count, next, m - 1);
    }
  }

  /** From the key at k, the root loop over m well-formed pairs prints their
      lines and carries on from the first token after them. */
  lemma PolicyLoopLand(js: string, t: seq<Token>, count: Size, k: nat, m: nat, out: seq<string>)
    requires SpansIn(js, t) && RootPairs(js, t, count, k, m)
    ensures PolicyLoop(js, t, count, k, out) ==
      PolicyLoop(js, t, count, RootPairsEnd(js, t, count, k, m), RootOut(js, t, count, k, m, out))
  {
    RootSteps(js, t, count, k, m);
    LoopChain(js, t, count, RootKeys(js, t, count, k, m), RootLines(js, t, count, k, m), RootPairsEnd(js, t, count, k, m), out);
  }

  /** On a root object made of m well-formed pairs that reach count,
      print_seccomp prints the lines of its pairs in order and returns 0. */
  lemma PolicyLands(js: string, t: seq<Token>, count: Size, m: nat)
    requires SpansIn(js, t) && 1 <= count && |t| > 0 && t[0].kind == Object
    requires RootPairs(js, t, count, 1, m) && RootPairsEnd(js, t, count, 1, m) >= count
    ensures Policy(js, t, count) == Done(0, RootOut(js, t, count, 1, m, []))
  {
    PolicyLoopLand(js, t, count, 1, m, []);
  }
}
