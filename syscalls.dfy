/** print_syscalls: the walker over the policy's array of syscall rules. */
module Syscalls {
  import opened Tokens
  import opened KeyMatch
  import Args

  const ArgsHeader := "\targs:\n"

  /** print_args as an "args" key at i calls it: on the tokens from its value
      t[i+1] on, with the length `count - (i + 1) - 1`. */
  function NestedArgs(js: string, t: seq<Token>, count: Size, i: int): (w: Walk)
    requires SpansIn(js, t) && 0 <= i && i + 1 < |t|
    ensures w.Done? ==> 1 <= w.cursor
  {
    SpansInSuffix(js, t, i + 1);
    Args.Args(js, t[i + 1..], NestedLength(count, i))
  }

  /** The body of the key loop for the key at cursor i: the cursor before the
      loop step, and what the body prints. An "args" key hands the tokens from
      its value on to print_args, with the length seccomp.c computes, and
      adds the cursor print_args returns to its own. */
  function SyscallsKey(js: string, t: seq<Token>, count: Size, i: int): (w: Walk)
    requires SpansIn(js, t) && 0 <= i
    ensures w.Done? ==> i <= w.cursor
  {
    if i >= |t| then OutOfBounds([])
    else if JsonEq(js, t[i], "name") == 0 then KeyValue(js, t, i, "\tname: ", "\n")
    else if JsonEq(js, t[i], "action") == 0 then KeyValue(js, t, i, "\taction: ", "\n")
    else if JsonEq(js, t[i], "args") == 0 then
      if i + 1 >= |t| then OutOfBounds([])
      else if t[i + 1].kind != Array then Done(i, [])
      else
        var a := NestedArgs(js, t, count, i);
        if a.OutOfBounds? then OutOfBounds([ArgsHeader] + a.out)
        else Done(i + a.cursor, [ArgsHeader] + a.out)
    else Done(i, [UnexpectedKey(js, t[i])])
  }

  /** The key loop over a rule object of `size` pairs, from iteration j with
      cursor i, having printed out so far. */
  function SyscallsPairs(js: string, t: seq<Token>, count: Size, i: int, j: nat, size: nat, out: seq<string>): (w: Walk)
    requires SpansIn(js, t) && 0 <= i
    ensures w.Done? ==> i <= w.cursor
    decreases size - j
  {
    if j >= size then Done(i, out)
    else
      var k := SyscallsKey(js, t, count, i);
      if k.OutOfBounds? then OutOfBounds(out + k.out)
      else SyscallsPairs(js, t, count, k.cursor + 1, j + 1, size, out + k.out)
  }

  /** The element loop from cursor i with `num` rules still expected, having
      printed out so far. */
  function SyscallsElements(js: string, t: seq<Token>, count: Size, i: int, num: nat, out: seq<string>): (r: Elements)
    requires SpansIn(js, t) && 1 <= i
    ensures r.walk.Done? ==> i <= r.walk.cursor
    decreases |t| - i
  {
    if !(i < count && num > 0) then Elements(Done(i, out), num)
    else if i >= |t| then Elements(OutOfBounds(out), num)
    else if t[i].kind == Object then
      var w := SyscallsPairs(js, t, count, i + 1, 0, t[i].size, out);
      if w.OutOfBounds? then Elements(w, num - 1)
      else SyscallsElements(js, t, count, w.cursor, num - 1, w.out)
    else SyscallsElements(js, t, count, i + 1, num, out + [UnexpectedKey(js, t[i])])
  }

  /** print_syscalls(js, t, count): what it prints and the cursor it returns,
      which is at least 1. */
  function Syscalls(js: string, t: seq<Token>, count: Size): (w: Walk)
    requires SpansIn(js, t)
    ensures w.Done? ==> 1 <= w.cursor
  {
    if count < 1 then Done(1, [ObjectExpected])
    else if |t| == 0 then OutOfBounds([])
    else if t[0].kind != Array then Done(1, [ObjectExpected])
    else SyscallsElements(js, t, count, 1, t[0].size, []).walk
  }

  /** The body of print_syscalls' key loop for the key at cursor i. */
  method PrintSyscallKey(js: string, t: seq<Token>, count: Size, i: int) returns (w: Walk)
    requires SpansIn(js, t) && 0 <= i
    ensures w == SyscallsKey(js, t, count, i)
  {
    if i >= |t| {
      return OutOfBounds([]);
    }
    if JsonEq(js, t[i], "name") == 0 {
      return KeyValue(js, t, i, "\tname: ", "\n");
    } else if JsonEq(js, t[i], "action") == 0 {
      return KeyValue(js, t, i, "\taction: ", "\n");
    } else if JsonEq(js, t[i], "args") == 0 {
      var len := NestedLength(count, i);
      if i + 1 >= |t| {
        return OutOfBounds([]);
      }
      if t[i + 1].kind != Array {
        return Done(i, []);
      }
      SpansInSuffix(js, t, i + 1);
      var ret := Args.PrintArgs(js, t[i + 1..], len);
      if ret.OutOfBounds? {
        return OutOfBounds([ArgsHeader] + ret.out);
      }
      return Done(i + ret.cursor, [ArgsHeader] + ret.out);
    } else {
      return Done(i, [UnexpectedKey(js, t[i])]);
    }
  }

  /** One turn of the key loop: the body for the key at i, then the loop step. */
  lemma SyscallsPairsStep(js: string, t: seq<Token>, count: Size, i: int, j: nat, size: nat, out: seq<string>)
    requires SpansIn(js, t) && 0 <= i && j < size
    ensures var k := SyscallsKey(js, t, count, i);
      SyscallsPairs(js, t, count, i, j, size, out) ==
        if k.OutOfBounds? then OutOfBounds(out + k.out) else SyscallsPairs(js, t, count, k.cursor + 1, j + 1, size, out + k.out)
  {
  }

  /** The key loop of print_syscalls over one rule object of objectSize
      pairs, entered with the cursor on its first key. */
  method PrintSyscallObject(js: string, t: seq<Token>, count: Size, first: int, objectSize: nat, printed: seq<string>)
    returns (w: Walk)
    requires SpansIn(js, t) && 0 <= first
    ensures w == SyscallsPairs(js, t, count, first, 0, objectSize, printed)
  {
    var i, out := first, printed;
    var j := 0;
    ghost var whole := SyscallsPairs(js, t, count, first, 0, objectSize, printed);
    while j < objectSize
      invariant 0 <= i && j <= objectSize
      invariant SyscallsPairs(js, t, count, i, j, objectSize, out) == whole
    {
      var key := PrintSyscallKey(js, t, count, i);
      SyscallsPairsStep(js, t, count, i, j, objectSize, out);
      if key.OutOfBounds? {
        return OutOfBounds(out + key.out);
      }
      i, j, out := key.cursor + 1, j + 1, out + key.out;
    }
    assert SyscallsPairs(js, t, count, i, j, objectSize, out) == Done(i, out);
    return Done(i, out);
  }

  /** print_syscalls as seccomp.c runs it: a cursor i over the tokens, a
      countdown num of the array's rules, and the key loop over each rule. */
  method PrintSyscalls(js: string, t: seq<Token>, count: Size) returns (w: Walk)
    requires SpansIn(js, t)
    ensures w == Syscalls(js, t, count)
  {
    if count < 1 {
      return Done(1, [ObjectExpected]);
    }
    if |t| == 0 {
      return OutOfBounds([]);
    }
    if t[0].kind != Array {
      return Done(1, [ObjectExpected]);
    }
    var num := t[0].size;
    var out: seq<string> := [];
    var i := 1;
    while i < count && num > 0
      invariant 1 <= i
      invariant SyscallsElements(js, t, count, i, num, out) == SyscallsElements(js, t, count, 1, t[0].size, [])
      decreases |t| - i
    {
      if i >= |t| {
        return OutOfBounds(out);
      }
      if t[i].kind == Object {
        var objectSize := t[i].size;
        num := num - 1;
        i := i + 1;
        var pairs := PrintSyscallObject(js, t, count, i, objectSize, out);
        assert SyscallsElements(js, t, count, i - 1, num + 1, out) ==
          if pairs.OutOfBounds? then Elements(pairs, num) else SyscallsElements(js, t, count, pairs.cursor, num, pairs.out);
        if pairs.OutOfBounds? {
          return pairs;
        }
        i, out := pairs.cursor, pairs.out;
      } else {
        assert SyscallsElements(js, t, count, i, num, out) ==
          SyscallsElements(js, t, count, i + 1, num, out + [UnexpectedKey(js, t[i])]);
        out := out + [UnexpectedKey(js, t[i])];
        i := i + 1;
      }
    }
    return Done(i, out);
  }

  // Properties of print_syscalls

  /** One of the three keys a syscall rule may carry. */
  predicate IsRuleKey(js: string, tok: Token)
    requires SpanIn(js, tok)
  {
    Spells(js, tok, "name") || Spells(js, tok, "action") || Spells(js, tok, "args")
  }

  /** What the body does for each key: "name" and "action" print their value
      on one line and move onto it; "args" with a value that is not an array
      prints nothing and leaves the cursor on the key, so the loop step moves
      onto the value; "args" with an array value prints the header and then
      exactly what print_args prints for the tokens from the value on, and adds
      the cursor print_args returns to its own; any other key is reported and
      the cursor stays on it. */
  lemma SyscallsKeyCases(js: string, t: seq<Token>, count: Size, i: nat)
    requires SpansIn(js, t) && i < |t|
    ensures Spells(js, t[i], "name") && i + 1 < |t| ==>
      SyscallsKey(js, t, count, i) == Done(i + 1, ["\tname: " + Text(js, t[i + 1]) + "\n"])
    ensures Spells(js, t[i], "action") && i + 1 < |t| ==>
      SyscallsKey(js, t, count, i) == Done(i + 1, ["\taction: " + Text(js, t[i + 1]) + "\n"])
    ensures Spells(js, t[i], "args") && i + 1 < |t| && t[i + 1].kind != Array ==>
      SyscallsKey(js, t, count, i) == Done(i, [])
    ensures Spells(js, t[i], "args") && i + 1 < |t| && t[i + 1].kind == Array ==>
      var a := NestedArgs(js, t, count, i);
      SyscallsKey(js, t, count, i) ==
        if a.OutOfBounds? then OutOfBounds([ArgsHeader] + a.out) else Done(i + a.cursor, [ArgsHeader] + a.out)
    ensures !IsRuleKey(js, t[i]) ==> SyscallsKey(js, t, count, i) == Done(i, [UnexpectedKey(js, t[i])])
  {
    JsonEqSpells(js, t[i], "name");
    JsonEqSpells(js, t[i], "action");
    JsonEqSpells(js, t[i], "args");
  }

  /** A recognised key that is the last token of the buffer: the body reads
      its value outside the buffer before printing anything. */
  lemma SyscallsKeyPastBuffer(js: string, t: seq<Token>, count: Size, i: nat)
    requires SpansIn(js, t) && i < |t| && IsRuleKey(js, t[i]) && i + 1 >= |t|
    ensures SyscallsKey(js, t, count, i) == OutOfBounds([])
  {
    JsonEqSpells(js, t[i], "name");
    JsonEqSpells(js, t[i], "action");
    JsonEqSpells(js, t[i], "args");
  }

  lemma SyscallsKeyLeads(js: string, t: seq<Token>, count: Size, i: int)
    requires SpansIn(js, t) && 0 <= i
    ensures NoLeadingRejection(SyscallsKey(js, t, count, i).out)
  {
    KeyValueReportsOnly(js, t, i, "\tname: ", "\n");
    KeyValueReportsOnly(js, t, i, "\taction: ", "\n");
  }

  lemma {:induction false} SyscallsPairsLeads(js: string, t: seq<Token>, count: Size, i: int, j: nat, size: nat, out: seq<string>)
    requires SpansIn(js, t) && 0 <= i && NoLeadingRejection(out)
    ensures NoLeadingRejection(SyscallsPairs(js, t, count, i, j, size, out).out)
    decreases size - j
  {
    if j < size {
      var k := SyscallsKey(js, t, count, i);
      SyscallsKeyLeads(js, t, count, i);
      assert out == [] ==> out + k.out == k.out;
      if k.Done? {
        SyscallsPairsLeads(js, t, count, k.cursor + 1, j + 1, size, out + k.out);
      }
    }
  }

  lemma {:induction false} SyscallsElementsLeads(js: string, t: seq<Token>, count: Size, i: int, num: nat, out: seq<string>)
    requires SpansIn(js, t) && 1 <= i && NoLeadingRejection(out)
    ensures NoLeadingRejection(SyscallsElements(js, t, count, i, num, out).walk.out)
    decreases |t| - i
  {
    if i < count && num > 0 && i < |t| {
      if t[i].kind == Object {
        var w := SyscallsPairs(js, t, count, i + 1, 0, t[i].size, out);
        SyscallsPairsLeads(js, t, count, i + 1, 0, t[i].size, out);
        if w.Done? {
          SyscallsElementsLeads(js, t, count, w.cursor, num - 1, w.out);
        }
      } else {
        assert out == [] ==> out + [UnexpectedKey(js, t[i])] == [UnexpectedKey(js, t[i])];
        SyscallsElementsLeads(js, t, count, i + 1, num, out + [UnexpectedKey(js, t[i])]);
      }
    }
  }

  /** print_syscalls prints only "Object expected" and returns 1 exactly when
      count is 0 or its first token is not an array. (A nested print_args may
      print that report too, but only after the "args:" header.) */
  lemma SyscallsRejects(js: string, t: seq<Token>, count: Size)
    requires SpansIn(js, t)
    ensures Syscalls(js, t, count) == Done(1, [ObjectExpected]) <==> count < 1 || (|t| > 0 && t[0].kind != Array)
  {
    if count >= 1 && |t| > 0 && t[0].kind == Array {
      SyscallsElementsLeads(js, t, count, 1, t[0].size, []);
    }
  }

  /** The countdown num of the rule loop: it never goes below zero nor above
      its start, and the loop ends with it at zero unless the cursor has
      reached count. Its second ensures is a one-step unfolding kept as a
      helper for the lemmas below: a token that is not an object is reported
      and leaves the countdown as it is. */
  lemma {:induction false} SyscallsCountdown(js: string, t: seq<Token>, count: Size, i: int, num: nat, out: seq<string>)
    requires SpansIn(js, t) && 1 <= i
    ensures var r := SyscallsElements(js, t, count, i, num, out);
      r.walk.Done? ==> 0 <= r.left <= num && (r.left == 0 || r.walk.cursor >= count)
    ensures i < count && num > 0 && i < |t| && t[i].kind != Object ==>
      SyscallsElements(js, t, count, i, num, out) == SyscallsElements(js, t, count, i + 1, num, out + [UnexpectedKey(js, t[i])])
    decreases |t| - i
  {
    if i < count && num > 0 && i < |t| {
      if t[i].kind == Object {
        var w := SyscallsPairs(js, t, count, i + 1, 0, t[i].size, out);
        if w.Done? {
          SyscallsCountdown(js, t, count, w.cursor, num - 1, w.out);
        }
      } else {
        SyscallsCountdown(js, t, count, i + 1, num, out + [UnexpectedKey(js, t[i])]);
      }
    }
  }

  // A well-formed rule array: objects whose pairs are "name" and "action"
  // with scalar values, or "args" with a well-formed argument array.

  /** The value after the "args" key at k is an argument array that
      print_args, handed the length seccomp.c computes, walks to its end. */
  predicate ArgsArrayAt(js: string, t: seq<Token>, count: Size, k: nat)
    requires SpansIn(js, t)
  {
    k + 1 < |t| && t[k + 1].kind == Array && 1 <= NestedLength(count, k) &&
    (SpansInSuffix(js, t, k + 1);
     Args.ArgObjectsFrom(js, t[k + 1..], 1, t[k + 1].size, NestedLength(count, k)))
  }

  /** The first token after that argument array. */
  function ArgsArrayEnd(js: string, t: seq<Token>, count: Size, k: nat): nat
    requires SpansIn(js, t) && ArgsArrayAt(js, t, count, k)
  {
    SpansInSuffix(js, t, k + 1);
    k + 1 + Args.ObjectsEnd(js, t[k + 1..], 1, t[k + 1].size, NestedLength(count, k))
  }

  /** The pair at k is "name" or "action" with a scalar value, or "args"
      with a well-formed argument array. */
  predicate RulePairAt(js: string, t: seq<Token>, count: Size, k: nat)
    requires SpansIn(js, t)
  {
    k + 1 < |t| &&
    if Spells(js, t[k], "name") || Spells(js, t[k], "action") then Scalar(t[k + 1])
    else Spells(js, t[k], "args") && ArgsArrayAt(js, t, count, k)
  }

  /** The key of the pair after the well-formed pair at k. */
  function NextPair(js: string, t: seq<Token>, count: Size, k: nat): nat
    requires SpansIn(js, t) && RulePairAt(js, t, count, k)
  {
    if Spells(js, t[k], "name") || Spells(js, t[k], "action") then k + 2 else ArgsArrayEnd(js, t, count, k)
  }

  /** m well-formed pairs of a rule object from the key at k. */
  predicate RulePairs(js: string, t: seq<Token>, count: Size, k: nat, m: nat)
    requires SpansIn(js, t)
    decreases m
  {
    m == 0 || (RulePairAt(js, t, count, k) && RulePairs(js, t, count, NextPair(js, t, count, k), m - 1))
  }

  /** The first token after those m pairs. */
  function RulePairsEnd(js: string, t: seq<Token>, count: Size, k: nat, m: nat): nat
    requires SpansIn(js, t) && RulePairs(js, t, count, k, m)
    decreases m
  {
    if m == 0 then k else RulePairsEnd(js, t, count, NextPair(js, t, count, k), m - 1)
  }

  /** n rule objects one after the other from p, each starting before count. */
  predicate RulesFrom(js: string, t: seq<Token>, count: Size, p: nat, n: nat)
    requires SpansIn(js, t)
    decreases n
  {
    n == 0 ||
    (p < count && p < |t| && t[p].kind == Object && RulePairs(js, t, count, p + 1, t[p].size) &&
     RulesFrom(js, t, count, RulePairsEnd(js, t, count, p + 1, t[p].size), n - 1))
  }

  /** The first token after n rule objects from p. */
  function RulesEnd(js: string, t: seq<Token>, count: Size, p: nat, n: nat): nat
    requires SpansIn(js, t) && RulesFrom(js, t, count, p, n)
    decreases n
  {
    if n == 0 then p else RulesEnd(js, t, count, RulePairsEnd(js, t, count, p + 1, t[p].size), n - 1)
  }

  /** What print_syscalls prints for the well-formed pair at k: the "name"
      or "action" line, or the "args" header followed by the lines of the
      argument objects. */
  function RulePairLines(js: string, t: seq<Token>, count: Size, k: nat): seq<string>
    requires SpansIn(js, t) && RulePairAt(js, t, count, k)
  {
    SpansInSuffix(js, t, k + 1);
    if Spells(js, t[k], "name") then ["\tname: " + Text(js, t[k + 1]) + "\n"]
    else if Spells(js, t[k], "action") then ["\taction: " + Text(js, t[k + 1]) + "\n"]
    else [ArgsHeader] + Args.ObjectsLines(js, t[k + 1..], 1, t[k + 1].size, NestedLength(count, k))
  }

  /** What print_syscalls prints after out for m well-formed pairs from the
      key at k: the lines of each pair, pair after pair. */
  function RulePairsOut(js: string, t: seq<Token>, count: Size, k: nat, m: nat, out: seq<string>): seq<string>
    requires SpansIn(js, t) && RulePairs(js, t, count, k, m)
    decreases m
  {
    if m == 0 then out
    else RulePairsOut(js, t, count, NextPair(js, t, count, k), m - 1, out + RulePairLines(js, t, count, k))
  }

  /** What print_syscalls prints after out for n well-formed rule objects
      from p: the lines of each rule's pairs, rule after rule. */
  function RulesOut(js: string, t: seq<Token>, count: Size, p: nat, n: nat, out: seq<string>): seq<string>
    requires SpansIn(js, t) && RulesFrom(js, t, count, p, n)
    decreases n
  {
    if n == 0 then out
    else RulesOut(js, t, count, RulePairsEnd(js, t, count, p + 1, t[p].size), n - 1,
                  RulePairsOut(js, t, count, p + 1, t[p].size, out))
  }

  /** For an "args" key whose value is a well-formed argument array, the body
      prints the header and the lines of the argument objects, and the cursor
      print_args returns, added to the key's cursor, puts the loop step on
      the first token after the array. */
  lemma ArgsValueLands(js: string, t: seq<Token>, count: Size, i: nat)
    requires SpansIn(js, t) && i < |t| && Spells(js, t[i], "args") && ArgsArrayAt(js, t, count, i)
    ensures SpansIn(js, t[i + 1..])
    ensures SyscallsKey(js, t, count, i) ==
      Done(ArgsArrayEnd(js, t, count, i) - 1,
           [ArgsHeader] + Args.ObjectsLines(js, t[i + 1..], 1, t[i + 1].size, NestedLength(count, i)))
  {
    SyscallsKeyCases(js, t, count, i);
    SpansInSuffix(js, t, i + 1);
    var u := t[i + 1..];
    assert u[0] == t[i + 1];
    Args.ArgsLands(js, u, NestedLength(count, i));
  }

  /** The body for a well-formed pair prints the pair's lines and moves the
      cursor so that the loop step lands on the next pair's key. */
  lemma RuleKeyLands(js: string, t: seq<Token>, count: Size, k: nat)
    requires SpansIn(js, t) && RulePairAt(js, t, count, k)
    ensures SyscallsKey(js, t, count, k) == Done(NextPair(js, t, count, k) - 1, RulePairLines(js, t, count, k))
  {
    SyscallsKeyCases(js, t, count, k);
    if !(Spells(js, t[k], "name") || Spells(js, t[k], "action")) {
      ArgsValueLands(js, t, count, k);
    }
  }

  /** From iteration j on, the key loop over well-formed pairs prints their
      lines and ends right after the last pair. */
  lemma {:induction false} SyscallsPairsLand(js: string, t: seq<Token>, count: Size, k: nat, j: nat, size: nat, out: seq<string>)
    requires SpansIn(js, t) && j <= size && RulePairs(js, t, count, k, size - j)
    ensures var w := SyscallsPairs(js, t, count, k, j, size, out);
      w.Done? && w.cursor == RulePairsEnd(js, t, count, k, size - j) &&
      w.out == RulePairsOut(js, t, count, k, size - j, out)
    decreases size - j
  {
    if j < size {
      var key := SyscallsKey(js, t, count, k);
      RuleKeyLands(js, t, count, k);
      SyscallsPairsStep(js, t, count, k, j, size, out);
      var next := NextPair(js, t, count, k);
      SyscallsPairsLand(js, t, count, next, j + 1, size, out + key.out);
    }
  }

  /** The rule loop over n well-formed rule objects prints their lines in
      order and ends right after the last, with num at 0. */
  lemma {:induction false} SyscallsElementsLand(js: string, t: seq<Token>, count: Size, p: nat, n: nat, out: seq<string>)
    requires SpansIn(js, t) && 1 <= p && RulesFrom(js, t, count, p, n)
    ensures var r := SyscallsElements(js, t, count, p, n, out);
      r.walk.Done? && r.walk.cursor == RulesEnd(js, t, count, p, n) && r.left == 0 &&
      r.walk.out == RulesOut(js, t, count, p, n, out)
    decreases n
  {
    if n > 0 {
      var next := RulePairsEnd(js, t, count, p + 1, t[p].size);
      var printed := RulePairsOut(js, t, count, p + 1, t[p].size, out);
      assert SyscallsElements(js, t, count, p, n, out) == SyscallsElements(js, t, count, next, n - 1, printed) by {
        SyscallsPairsLand(js, t, count, p + 1, 0, t[p].size, out);
      }
      SyscallsElementsLand(js, t, count, next, n - 1, printed);
    }
  }

  /** On a well-formed rule array whose rule objects all start before count,
      print_syscalls prints the lines of its rules in order and returns
      exactly the number of tokens of the array. */
  lemma SyscallsLands(js: string, t: seq<Token>, count: Size)
    requires SpansIn(js, t) && 1 <= count && |t| > 0 && t[0].kind == Array
    requires RulesFrom(js, t, count, 1, t[0].size)
    ensures Syscalls(js, t, count) ==
      Done(RulesEnd(js, t, count, 1, t[0].size), RulesOut(js, t, count, 1, t[0].size, []))
  {
    SyscallsElementsLand(js, t, count, 1, t[0].size, []);
  }
}
