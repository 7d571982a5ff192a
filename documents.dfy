/** A policy document on which the nested length `count - (i + 1) - 1` stops
    one token short of the nested array. */
module Documents {
  import opened Tokens
  import opened Policy

  /** `{"syscalls":[{}]}`: a rule array holding one empty rule. */
  const EmptyRuleText := "{\"syscalls\":[{}]}"
  /** Its tokens as the tokenizer produces them: the root object, the key, the
      array and the empty rule object. */
  const EmptyRuleTokens := [Token(Object, 0, 17, 1), Token(String, 2, 10, 1), Token(Array, 12, 16, 1), Token(Object, 13, 15, 0)]

  lemma EmptyRuleSpans()
    ensures SpansIn(EmptyRuleText, EmptyRuleTokens)
  {
  }

  /** The "syscalls" key hands print_syscalls the length 1, which covers the
      array token only: the rule loop never starts, print_syscalls returns 1,
      and the root loop steps onto the empty rule object. */
  lemma EmptyRuleSyscallsKey()
    requires SpansIn(EmptyRuleText, EmptyRuleTokens)
    ensures PolicyKey(EmptyRuleText, EmptyRuleTokens, 4, 1) == Done(2, [SyscallsHeader])
  {
    var js, t := EmptyRuleText, EmptyRuleTokens;
    assert js[2..10] == "syscalls";
    assert Text(js, t[1]) == "syscalls";
    PolicyKeyCases(js, t, 4, 1);
    assert NestedLength(4, 1) == 1;
    SpansInSuffix(js, t, 2);
    assert t[2..][0] == t[2];
    assert NestedSyscalls(js, t, 4, 1) == Done(1, []);
  }

  /** The root loop then meets the empty rule object and reports it as a key. */
  lemma EmptyRuleReported()
    requires SpansIn(EmptyRuleText, EmptyRuleTokens)
    ensures PolicyKey(EmptyRuleText, EmptyRuleTokens, 4, 3) == Done(3, ["Unexpected key: {}\n"])
  {
    var js, t := EmptyRuleText, EmptyRuleTokens;
    PolicyKeyCases(js, t, 4, 3);
    assert js[13..15] == "{}";
    assert Text(js, t[3]) == "{}";
    assert UnexpectedKey(js, t[3]) == "Unexpected key: {}\n";
  }

  /** print_seccomp on this document prints the "syscalls:" header and then
      reports the empty rule as an unexpected key "{}", and returns 0. */
  lemma EmptyRuleMisread()
    ensures SpansIn(EmptyRuleText, EmptyRuleTokens)
    ensures Policy.Policy(EmptyRuleText, EmptyRuleTokens, 4) == Done(0, [SyscallsHeader, "Unexpected key: {}\n"])
  {
    var js, t := EmptyRuleText, EmptyRuleTokens;
    EmptyRuleSpans();
    EmptyRuleSyscallsKey();
    EmptyRuleReported();
    var lines := [SyscallsHeader, "Unexpected key: {}\n"];
    PolicyLoopStep(js, t, 4, 1, []);
    assert PolicyLoop(js, t, 4, 1, []) == PolicyLoop(js, t, 4, 3, [SyscallsHeader]);
    PolicyLoopStep(js, t, 4, 3, [SyscallsHeader]);
    assert [SyscallsHeader] + ["Unexpected key: {}\n"] == lines;
    assert PolicyLoop(js, t, 4, 3, [SyscallsHeader]) == PolicyLoop(js, t, 4, 4, lines);
    assert PolicyLoop(js, t, 4, 4, lines) == Done(4, lines);
  }
}
