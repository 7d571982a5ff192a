# seccomp policy walker over JSMN tokens

The jsmn repository's `example/seccomp.c` reads a seccomp policy written as JSON. The document is first tokenized by jsmn into a flat array of `jsmntok_t`. Each token has a type, a `[start, end)` span in the text and a child count.

Three walkers then print the policy by moving an integer cursor over that token array:

- `print_seccomp` walks the root object's keys:
  - `defaultAction` prints its value;
  - `architectures` prints a bullet list of the array's elements;
  - `syscalls` hands its value to the rule walker.
- `print_syscalls` walks an array of rule objects with the keys `name`, `action` and `args`. `args` is handed on to the argument walker.
- `print_args` walks an array of argument objects with the keys `index`, `value`, `valueTwo` and `op`.

Each walker:

- reports any other key as `Unexpected key: ...`;
- rejects a token array whose first token has the wrong type by printing `Object expected` and returning 1;
- otherwise returns: `print_args` and `print_syscalls` return their cursor, which the caller adds to its own; `print_seccomp` returns 0.

A nested walker gets the suffix of the array that starts at the value token (`&t[i+1]`). It also gets the length `count - (i + 1) - 1`, computed in `size_t`, truncated to `int` and widened back to `size_t`. The caller adds the cursor the nested walker returns to its own. Key matching is `jsoneq`: the token is a string whose length is the key's `strlen`, and `strncmp` finds the two equal.

The model has one module per walker, plus the token data and the key match:

- **tokens.dfy (`Tokens`).** `Token` and `Kind`; the C conversions `ToInt` and `ToSize`; the nested length `NestedLength`; and `Walk`, the result of a walk. A walk either finishes with a cursor and the printed lines (`Done`), or stops where the C code would read a token past the end of the buffer, with what was printed up to there (`OutOfBounds`).
- **key_match.dfy (`KeyMatch`).** `strncmp` as `StrNCmp`, and `jsoneq` as `JsonEq`.
- **args.dfy, syscalls.dfy, policy.dfy.** Each C loop is a tail-recursive function carrying the cursor, the iteration counter and the output so far (`ArgsPairs`, `ArgsElements`, `SyscallsPairs`, `SyscallsElements`, `Bullets`, `PolicyLoop`). The C loops themselves are methods with `while` loops over a cursor (`PrintArgs`, `PrintSyscalls`, `PrintSeccomp` and their per-object and per-key bodies). Each method is proved to return exactly what its function computes. Key-case lemmas state what the loop body prints for each key. Landing lemmas take a well-formed document: every key is recognised, every value has the expected type, and each element or pair starts before the count its walker was handed. Because the nested length is one short, that last condition excludes, for example, an array that ends in an empty object `{}` (see documents.dfy). On such a document they state the exact lines each walker prints, and where its cursor lands. Those lines are given by functions written independently of the walkers: `ArgObjectLines` and `ObjectsLines` for arguments, `RulesOut` for rules, `RootOut` for the root object.
- **documents.dfy (`Documents`).** A concrete document, `{"syscalls":[{}]}`, tokenized by hand. On it, the length handed to `print_syscalls` is one short of the tokens that remain. The rule walker stops before the empty rule object, and the root loop then reports that object as an unexpected key.

Output is a sequence of the fragments each `printf` writes, in order. `%.*s` of a token is its text `js[start..end]`.

## Model

| member | source | states |
|---|---|---|
| KeyMatch.StrNCmp | example/seccomp.c:25 | strncmp compares at most n characters, stops at the first difference or at a NUL both strings share, and returns the difference of the first differing characters (no contract of its own; StrNCmpZero states what jsoneq relies on) |
| KeyMatch.StrNCmpZero | example/seccomp.c:25 | against a key of n characters without NUL, strncmp over n characters is 0 exactly when the first n characters of the text are the key |
| KeyMatch.JsonEq | example/seccomp.c:23-29 | jsoneq returns 0 or -1 and nothing else |
| KeyMatch.JsonEqSpells | example/seccomp.c:23-29 | jsoneq returns 0 exactly when the token is a string whose text is the key (both directions) |
| Tokens.ToInt | example/seccomp.c:106 | conversion to int keeps the value modulo 2^32 in the signed 32-bit range and is the identity on that range |
| Tokens.ToSize | example/seccomp.c:112 | conversion to size_t keeps the value modulo 2^64 and adds 2^64 to a negative int |
| Tokens.NestedLength | example/seccomp.c:106 | the length handed to a nested walker is count - i - 2 when that is a non-negative int; when it is negative it wraps to 2^64 + count - i - 2 |
| Tokens.Text | example/seccomp.c:153 | what `%.*s` prints for a token, with the span's length as precision and `js + start` as the string: the characters js[start..end], in order (no contract of its own; Bullet states its length) |
| Tokens.KeyValue | example/seccomp.c:49-64 | a recognised key whose value is a scalar, as in the index, value, valueTwo and op cases (and at 96-104 for name and action, 140-144 for defaultAction): the walk ends out of bounds with nothing printed exactly when the value token t[i+1] is past the buffer; otherwise it prints one line and the cursor moves onto the value |
| Tokens.UnexpectedKey | example/seccomp.c:66-67 | an unexpected-key report never reads as the "Object expected" line |
| Tokens.KeyValueReportsOnly | example/seccomp.c:50-51 | a recognised key's line, whose prefix starts differently, is never the "Object expected" line |
| Args.ArgsKey | example/seccomp.c:49-68 | the body of the key loop never moves the cursor backwards |
| Args.ArgsPairs | example/seccomp.c:48-69 | the key loop never moves the cursor backwards |
| Args.ArgsElements | example/seccomp.c:43-75 | the element loop never moves the cursor backwards |
| Args.Args | example/seccomp.c:31-77 | a print_args that finishes returns a cursor of at least 1 |
| Args.PrintArgKey | example/seccomp.c:49-68 | the loop body prints and moves the cursor exactly as ArgsKey says |
| Args.PrintArgObject | example/seccomp.c:48-69 | the key loop over an argument object of object_size pairs prints and returns exactly what ArgsPairs says |
| Args.PrintArgs | example/seccomp.c:31-77 | print_args, with its nested loops over a cursor, prints and returns exactly what Args says |
| Args.ArgsKeyCases | example/seccomp.c:49-68 | index, value and valueTwo print their label and value with no newline, and op ends its line; each moves onto the value; any other key is reported and the cursor stays on it |
| Args.ArgsKeyPastBuffer | example/seccomp.c:49-68 | an index, value, valueTwo or op key that is the last token of the buffer reads its value past the buffer before printing anything: the walk ends out of bounds with no output |
| Args.ArgsKeyReportsOnly | example/seccomp.c:49-68 | the key loop body never prints "Object expected" |
| Args.ArgsPairsReportsOnly | example/seccomp.c:48-69 | the key loop never adds an "Object expected" line |
| Args.ArgsElementsReportsOnly | example/seccomp.c:43-75 | the element loop never adds an "Object expected" line, so only the rejection prints it |
| Args.ArgsRejects | example/seccomp.c:36-39 | print_args prints only "Object expected" and returns 1 exactly when count < 1 or the first token is not an array |
| Args.ArgsCountdown | example/seccomp.c:41-46 | num stays between 0 and its start; the loop ends with num at 0 unless the cursor has reached count; a non-object element is reported, the cursor moves past it and num is unchanged |
| Args.ArgsPairsLand | example/seccomp.c:48-69 | from pair j of a well-formed argument object, the key loop ends right after the object and appends that object's lines from pair j on, in order |
| Args.ArgsElementsLand | example/seccomp.c:43-75 | over n well-formed argument objects one after another, the element loop ends right after the last with num at 0, having appended the lines of each object in order |
| Args.ArgObjectLines | example/seccomp.c:48-69 | a well-formed argument object prints one line per pair |
| Args.PairsOutLines | example/seccomp.c:48-69 | appending an object's lines one pair at a time, from pair j, gives what was printed before followed by the object's lines from j on |
| Args.ObjectsOutLines | example/seccomp.c:43-75 | appending the lines of n objects pair by pair gives what was printed before followed by ObjectsLines |
| Args.ArgsLands | example/seccomp.c:31-77 | on a well-formed argument array, print_args prints exactly ObjectsLines, the lines of its objects in order, and returns the index just past the array's last object |
| Syscalls.NestedArgs | example/seccomp.c:105-113 | the nested print_args call from an "args" key returns a cursor of at least 1 when it finishes |
| Syscalls.SyscallsKey | example/seccomp.c:96-117 | the body of the key loop never moves the cursor backwards |
| Syscalls.SyscallsPairs | example/seccomp.c:95-118 | the key loop never moves the cursor backwards |
| Syscalls.SyscallsElements | example/seccomp.c:90-124 | the rule loop never moves the cursor backwards |
| Syscalls.Syscalls | example/seccomp.c:80-127 | a print_syscalls that finishes returns a cursor of at least 1 |
| Syscalls.PrintSyscallKey | example/seccomp.c:96-117 | the loop body, including its call into print_args, prints and moves the cursor exactly as SyscallsKey says |
| Syscalls.PrintSyscallObject | example/seccomp.c:95-118 | the key loop over a rule object prints and returns exactly what SyscallsPairs says |
| Syscalls.PrintSyscalls | example/seccomp.c:80-127 | print_syscalls, with its nested loops over a cursor, prints and returns exactly what Syscalls says |
| Syscalls.SyscallsKeyCases | example/seccomp.c:96-117 | name and action print their value on one line and move onto it; args with a non-array value prints nothing and keeps the cursor on the key; args with an array prints the header, then what print_args prints, and adds its cursor; any other key is reported |
| Syscalls.SyscallsKeyPastBuffer | example/seccomp.c:96-117 | a name, action or args key that is the last token of the buffer reads its value past the buffer before printing anything: the walk ends out of bounds with no output |
| Syscalls.SyscallsKeyLeads | example/seccomp.c:96-117 | the key loop body never starts its output with "Object expected" |
| Syscalls.SyscallsPairsLeads | example/seccomp.c:95-118 | the key loop never starts its output with "Object expected" |
| Syscalls.SyscallsElementsLeads | example/seccomp.c:90-124 | the rule loop never starts its output with "Object expected" |
| Syscalls.SyscallsRejects | example/seccomp.c:83-86 | print_syscalls prints only "Object expected" and returns 1 exactly when count < 1 or the first token is not an array |
| Syscalls.SyscallsCountdown | example/seccomp.c:87-93 | num stays between 0 and its start; the loop ends with num at 0 unless the cursor has reached count; a non-object element is reported and skipped without counting |
| Syscalls.ArgsValueLands | example/seccomp.c:105-113 | for an "args" key whose value is a well-formed argument array, the body prints the "args:" header followed by the lines of the argument objects; with the loop step, the cursor lands on the token after the array |
| Syscalls.RuleKeyLands | example/seccomp.c:96-117 | for a well-formed pair, the body prints that pair's lines (name or action line, or the args header and argument lines); with the loop step, the cursor lands on the next pair's key |
| Syscalls.SyscallsPairsLand | example/seccomp.c:95-118 | over a rule object of well-formed pairs, the key loop ends right after the object and appends the lines of each pair in order |
| Syscalls.SyscallsElementsLand | example/seccomp.c:90-124 | over n well-formed rule objects, the rule loop ends right after the last with num at 0, having appended the lines of each rule in order |
| Syscalls.SyscallsLands | example/seccomp.c:80-127 | on a well-formed rule array, print_syscalls prints exactly RulesOut, the lines of its rules in order, and returns the index just past its last rule |
| Policy.NestedSyscalls | example/seccomp.c:156-164 | the nested print_syscalls call from a "syscalls" key returns a cursor of at least 1 when it finishes |
| Policy.PolicyKey | example/seccomp.c:140-168 | the body of the root loop never moves the cursor backwards |
| Policy.PolicyLoop | example/seccomp.c:139-169 | the root loop never moves the cursor backwards |
| Policy.Policy | example/seccomp.c:129-171 | print_seccomp prints only "Object expected" and returns 1 when count < 1 or the first token is not an object, and otherwise returns 0 when it finishes |
| Policy.PrintPolicyKey | example/seccomp.c:140-168 | the loop body, including the architectures loop and the call into print_syscalls, prints and moves the cursor exactly as PolicyKey says |
| Policy.PrintSeccomp | example/seccomp.c:129-171 | print_seccomp, with its loop over a cursor, prints and returns exactly what Policy says |
| Policy.Bullet | example/seccomp.c:153 | one architecture line is "  * ", then the element's text, then a newline: 4 + the span's length + 1 characters |
| Policy.Bullets | example/seccomp.c:151-154 | the architectures loop only appends to what was printed; element j is t[i+j+2]; a completed loop ends with its counter at n, having added one line per remaining element; it stops out of bounds only before reaching n, at the first element past the buffer |
| Policy.ArchitectureList | example/seccomp.c:151-154 | the architectures list has one line per array element |
| Policy.BulletsInBuffer | example/seccomp.c:151-154 | the architectures loop stays inside the token buffer exactly when it has nothing to print or all of its elements are in the buffer |
| Policy.BulletsLines | example/seccomp.c:151-154 | within the buffer, the architectures loop prints "  * " and the element's text, one line per element, in order |
| Policy.PolicyKeyCases | example/seccomp.c:140-168 | defaultAction prints its value and moves onto it; architectures or syscalls with a non-array value print nothing and keep the cursor on the key; syscalls with an array prints the header, then what print_syscalls prints, and adds its cursor; any other key is reported |
| Policy.PolicyKeyPastBuffer | example/seccomp.c:140-168 | a defaultAction, architectures or syscalls key that is the last token of the buffer reads its value past the buffer before printing anything: the walk ends out of bounds with no output |
| Policy.ArchitecturesLines | example/seccomp.c:145-155 | architectures with an array of n elements prints the header and the n bullets and moves the cursor by n + 1; elements past the buffer end the walk out of bounds |
| Policy.SyscallsValueLands | example/seccomp.c:156-164 | for a "syscalls" key whose value is a well-formed rule array, the body prints the "syscalls:" header followed by the lines of the rules; with the loop step, the cursor lands on the token after the array |
| Policy.RootKeyLands | example/seccomp.c:140-168 | for a well-formed root pair, the body prints that pair's lines (the defaultAction line, the architectures header and bullets, or the syscalls header and rule lines); with the loop step, the cursor lands on the next pair's key |
| Policy.RootStep | example/seccomp.c:139-169 | one turn of the root loop on a well-formed pair appends its lines and continues from the next pair's key |
| Policy.LoopChain | example/seccomp.c:139-169 | turns of the root loop chained one after another: from the first key, the loop appends every turn's lines in order and continues from where the last turn ends |
| Policy.RootSteps | example/seccomp.c:139-169 | m well-formed root pairs are m turns of the root loop, and appending their lines group by group is RootOut |
| Policy.PolicyLoopLand | example/seccomp.c:139-169 | from the key at k, the root loop over m well-formed pairs appends their lines in order and continues from the first token after them |
| Policy.PolicyLands | example/seccomp.c:129-171 | on a root object of m well-formed pairs that reach count, print_seccomp prints exactly RootOut, the lines of its pairs in order, and returns 0 |
| Documents.EmptyRuleSyscallsKey | example/seccomp.c:156-164 | on {"syscalls":[{}]}, the length handed to print_syscalls is 1; the rule walker returns 1 without printing a rule, so the cursor lands on the empty rule object |
| Documents.EmptyRuleReported | example/seccomp.c:165-167 | the root loop then reports the empty rule object as the key "{}" |
| Documents.EmptyRuleMisread | example/seccomp.c:129-171 | print_seccomp on {"syscalls":[{}]} prints "syscalls:" followed by "Unexpected key: {}" and returns 0 |

## Left out

- `main` and `realloc_it`: reading standard input, growing the buffers and calling the tokenizer are input handling around the walkers, not walker logic.
- The tokenizer (`jsmn.h`) is not part of this model. The walkers take its output as given: a token array whose spans lie inside the text.
- `printf` and standard output: each walker returns the sequence of fragments it prints. The model does not capture `%.*s` stopping early at a NUL inside a token's text.
- Reads past the token buffer: the C code reads `t[i]`, `t[i+1]` and `t[i+j+2]` without checking them against the number of tokens. The short nested length alone does not cause such a read: a nested walker then reads its last value token at an index equal to its own count, which is still inside the buffer (the "r" of `{"syscalls":[{"name":"r"}]}`). Reads past the buffer come from a cursor that loop steps have misaligned, as in `{"syscalls":[{"args":["q"],"a":"b","c":"d","e":"f"}]}`, whose 13 tokens lead to a read of t[13]. The model ends the walk there with `OutOfBounds` and the output printed so far.
- The token sequence `t` stands for the `p.toknext` tokens the tokenizer filled, which `main` hands to `print_seccomp` (example/seccomp.c:229). In C, the buffer `tok` is allocated with `tokcount` slots (example/seccomp.c:182-222), so a read past `p.toknext` may hit a slot the tokenizer never filled, whose contents are uninitialised, or memory past the allocation. The model does not distinguish these: every read at or past the end of `t` ends the walk with `OutOfBounds`.
- KeyMatch.JsonEq: the keys are the literals the walkers pass, none of which contains a NUL, so `strlen(s)` is taken as their length.
- Policy.Policy: `int` cursor overflow is not modelled. Cursors and child counts are unbounded integers, which agrees with the C code while the token array has fewer than 2^31 tokens. Only the nested length's `size_t`/`int` conversions are modelled bit for bit.
- Args.Args, Syscalls.Syscalls, Policy.Policy: the functions' own contracts state only that the cursor never moves backwards and what the rejection path prints. What they print on a well-formed document is stated by Args.ArgsLands, Syscalls.SyscallsLands and Policy.PolicyLands. On other documents, the lines for each key are stated by the key-case lemmas, not by a whole-walk lemma.
