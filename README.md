# CALCULATOR v1.0, modelled in Dafny

This project models `calculator.cpp`, a small C++ console calculator. It has two parts:

* **Integer helpers.** `factorial` is a count-down accumulator loop. `div` is C++ `int` division. `search` is a linear scan that returns the first index holding a value, or -1.
* **The session in `main`.** This is a `goto` loop over three doubles: the left operand `a`, the result `r`, and a one-slot `memory` that starts at 0. Each round does four things:
  1. It reads an operand and an operator. `!` takes no second operand; every other operator reads one.
  2. It echoes `=r`.
  3. It reads a memory directive: `mi` stores `r`, `mc` clears the memory, and any other word is ignored.
  4. It reads a flow directive:
     * `restart` goes back to `start:` to read a fresh `a`.
     * `reuse` sets `a := r` and `mr` sets `a := memory`; both go back to `reused:` to read an operator.
     * `quit`, or any other word, goes to `end:`.

Files:

* `int_helpers.dfy` (module `IntHelpers`): the helpers over C++ `int`, with `Int32` and `UInt32` as subset types.
  * `Factorial` and `Search` are methods with loops, like the source.
  * `Div` is a function.
  * `Fact` is a reference definition: the ascending product 1 * 2 * ... * n.
* `session.dfy` (module `Session`): the session as an explicit state machine.
  * `Phase` turns the labels `start:`, `reused:` and `end:` into named states. It also has two halting states: `Undefined`, where the C++ program's behaviour is undefined, and `BadInput`, where a token of the wrong kind arrives.
  * `Next` is one input extraction and everything `main` does before the next one.
  * `Exec` runs `Next` over a whole token sequence.
  * `Run` is `main`'s loop written imperatively over the local variables. Its contract ties it to `Exec`.
* `session_lemmas.dfy` (module `SessionLemmas`): what each directive changes and keeps, an invariant of every run, and whole sessions on concrete inputs.
* `wrappers.dfy`: `Option`.

Some things the code does that a reader might not expect. The model follows the code in each case:

* Dividing by zero is not reported as an error. `r = a/b` runs with the abstract double quotient, the result is echoed, and the session goes on to the memory directive. It does not return to the operator prompt (`SessionLemmas.ScenarioDivideByZero`).
* `restart` re-reads `a` but discards neither `r` nor `memory`. An unrecognised operator after a restart echoes the old `r` again (`SessionLemmas.RestartKeepsMemoryAndResult`).
* An unrecognised flow word does not re-prompt. It falls through `getchar()` to `end:`, and the program ends (`SessionLemmas.DoneOnlyByFlowDirective`, `SessionLemmas.ScenarioUnknownFlowWordEnds`).
* An unrecognised operator still reads a second operand and leaves `r` unchanged (`SessionLemmas.UnknownOperatorKeepsResult`). On the first round, `r` has never been assigned, so echoing it is undefined behaviour.
* Undefined behaviour is modelled as the halting phase `Undefined`. `SessionLemmas.UndefinedCauses` lists every way to reach it:
  * `!` on an operand whose truncation lies outside `[-2^31, 12]`: either the conversion to `int` or the factorial loop overflows;
  * echoing the unassigned `r`;
  * a directive word of 10 or more bytes, which overflows `char choice[10]`. The word's size is its UTF-8 byte count (`Session.Utf8Length`), so `ééééé` (5 characters, 10 bytes) overflows, and a 9-letter ASCII word fits. This holds under C++17 and earlier standards, which the source was written for. From C++20 on, `cin >>` into a `char[10]` stops after 9 bytes, and the rest of the word becomes the next token; the model does not cover that reading.

## Model

| member | source | states |
|---|---|---|
| IntHelpers.Fact | calculator.cpp:15-18 | the factorial, defined as the ascending product 1 * ... * n, is at least 1 for every n |
| IntHelpers.Factorial | calculator.cpp:15-19 | for every `int` a <= 12, the count-down loop returns exactly Fact(a), and no intermediate product leaves the `int` range |
| IntHelpers.ProductSplitLast | calculator.cpp:17 | the product of lo..hi equals the product of lo..hi-1 times hi: peeling the top factor agrees with the definition, which peels the bottom one; this gives the recurrence and the monotonicity behind the overflow bound |
| IntHelpers.FactMonotone | calculator.cpp:17 | the factorial never decreases as its argument grows |
| IntHelpers.FactOfNonPositive | calculator.cpp:15-18 | factorial(a) = 1 for every a <= 0, because the loop body never runs |
| IntHelpers.FactRecurrence | calculator.cpp:16-17 | Fact(n) = n * Fact(n - 1) for every n > 0, hence factorial(n) = n * factorial(n - 1) for 1 <= n <= 12 |
| IntHelpers.FactBoundIsTight | calculator.cpp:15-17 | 12! fits in `int` and 13! does not, so a <= 12 is exactly the range where the loop does not overflow |
| IntHelpers.Div | calculator.cpp:21-23 | for b != 0, excluding MinInt32 / -1, the remainder a - q*b is smaller than the divisor in absolute value and is 0 or has the dividend's sign (C++ truncation toward zero) |
| IntHelpers.DivUnique | calculator.cpp:21-23 | these two properties determine the quotient: every q satisfying them equals div(a, b) |
| IntHelpers.DivTruncatesTowardZero | calculator.cpp:22 | div(-7, 2) = -3, whereas Euclidean division gives -4; div(7, -2) = -3 |
| IntHelpers.Search | calculator.cpp:43-51 | returns -1 exactly when no element of arr[0..n) equals x, which includes every n <= 0; otherwise returns the smallest i < n with arr[i] = x; the result depends only on arr[0..n) |
| Session.Trunc | calculator.cpp:75 | converting a double to `int` discards the fractional part: the result is at most the operand and within 1 of it for x >= 0, at least the operand and within 1 of it for x < 0 |
| Session.FactorialOf | calculator.cpp:75 | `r = factorial(a)` is defined exactly when trunc(a) lies in [-2^31, 12], and then r >= 1 |
| Session.Next | calculator.cpp:69-107 | memory changes only on `mi` or `mc` at the memory directive; `a` changes only when read, or on `reuse` or `mr`; the program reaches `end:` only from a flow word other than `restart`, `reuse` or `mr`; each step echoes at most one value, which is the new `r`; a halted session stays put |
| Session.Operate | calculator.cpp:76-83 | after reading `b`: `+`, `-` and `*` give the exact sum, difference and product; `/` and `^` give the double quotient and pow; any other operator leaves `r` as it was |
| Session.Run | calculator.cpp:63-108 | the imperative loop ends in exactly the state that the transition function reaches on the same input from the initial state (memory 0, nothing computed) |
| Session.ExecHalted | calculator.cpp:106-107 | after `end:` (or undefined behaviour, or a failed read) no further input is consumed |
| SessionLemmas.ExecAppend | calculator.cpp:69-107 | running two pieces of input in turn is the same as running them joined |
| SessionLemmas.NextConsistent | calculator.cpp:75-85 | each step keeps `r` equal to the last echoed value (unassigned before the first echo) and keeps `r` assigned at the directives |
| SessionLemmas.ExecConsistent | calculator.cpp:64-107 | every state reachable from a consistent state is consistent |
| SessionLemmas.UndefinedCauses | calculator.cpp:64-98 | from a consistent state, undefined behaviour comes only from `!` out of range, an unrecognised first operator, or a directive word of 10 or more UTF-8 bytes, too long for `choice[10]` |
| SessionLemmas.FactorialReadsNoOperand | calculator.cpp:73-75 | `!` reads no second operand: r = trunc(a)!, it is echoed, and the next read is the memory directive |
| SessionLemmas.BinaryOperatorReadsOneOperand | calculator.cpp:76-85 | every other operator reads exactly one operand `b`, then echoes the computed result; `+`, `-`, `*`, `/` and `^` each give their own result |
| SessionLemmas.UnknownOperatorKeepsResult | calculator.cpp:76-85 | an unrecognised operator still reads `b`, leaves `r` unchanged, and echoes it again |
| SessionLemmas.MemoryDirectiveStep | calculator.cpp:89-92 | `mi` sets memory := r, `mc` sets memory := 0, any other word leaves memory alone; the session always continues to the flow directive and nothing else changes |
| SessionLemmas.MemoryNeedsDirective | calculator.cpp:89-92 | along any input without `mi` and `mc`, memory never changes |
| SessionLemmas.MemoryZeroUntilStored | calculator.cpp:64 | memory stays 0 until the first `mi`, whatever restarts and clears occur |
| SessionLemmas.FlowDirectiveStep | calculator.cpp:98-107 | `restart` returns to reading `a`; `reuse` sets a := r and `mr` sets a := memory, both resuming at the operator read; `quit` and every other word end the program |
| SessionLemmas.ReuseResumesWithResult | calculator.cpp:100-101 | after `reuse`, the next operator is applied with left operand exactly r, and no left operand is read |
| SessionLemmas.RecallResumesWithMemory | calculator.cpp:103-104 | after `mr`, the next operator is applied with left operand exactly the memory |
| SessionLemmas.RestartKeepsMemoryAndResult | calculator.cpp:99 | `restart` then a number x changes only `a` (to x); memory and the previous `r` are kept |
| SessionLemmas.DoneOnlyByFlowDirective | calculator.cpp:102-107 | a run that reaches `end:` does so on a flow word: at some point it stands at the flow prompt, reads a word other than `restart`, `reuse` and `mr`, and is at `end:` right after that word |
| SessionLemmas.ScenarioStoreAndRecall | calculator.cpp:69-104 | 10 + 5 echoes 15; `mi` stores 15; `mr` + 5 echoes 20 |
| SessionLemmas.ScenarioFactorial | calculator.cpp:71-85 | 7 ! echoes 5040 without reading a second operand |
| SessionLemmas.ScenarioDivideByZero | calculator.cpp:77-99 | for every x, x / 0 echoes the double quotient and moves on to the memory directive; computing x * 2 afterwards takes a restart and echoes 2x |
| SessionLemmas.ScenarioWideWordOverflows | calculator.cpp:89 | at the memory directive, `ééééé` (5 characters, 10 UTF-8 bytes) overflows `choice[10]` and is undefined behaviour |
| SessionLemmas.ScenarioNineLettersFit | calculator.cpp:89 | at the memory directive, a 9-letter ASCII word fits in `choice[10]` and the session goes on to the flow directive |
| Session.Utf8LengthIsCharCountIffAscii | calculator.cpp:89 | a word takes exactly one byte of `choice` per character if and only if it is ASCII |
| SessionLemmas.ScenarioUnknownFlowWordEnds | calculator.cpp:98-107 | an unrecognised flow word ends the program, and later input is never read |
| SessionLemmas.ScenarioUndefined | calculator.cpp:64-85 | an unrecognised first operator (echoing the unassigned `r`) and 13 ! (overflowing the factorial loop) are undefined behaviour |

## Left out

- SwiftGenericHelper.swift is not part of this model: every function in it calls into AppKit or CoreGraphics.
- UIHelper.h is not part of this model: it holds only UI declarations, with no bodies.
- `div1` and `div2` (calculator.cpp:25-31) are not modelled. They are defective variants: one ignores the dividend, the other divides by a constant zero.
- `sort` (calculator.cpp:33-41) is not modelled: it is an empty stub, and its C++ does not compile.
- `search1` (calculator.cpp:53-61) is not modelled: it does not compile (its loop bound `l` is undeclared).
- Console output is left out: the prompts, the "command unknown" notice, the echo of `a` after `reuse` and `mr`, and `getchar()`. Only the `=r` echoes are kept, in `printed`.
- Input is an abstract sequence of tokens, each the result of one `cin >>`. A token of the wrong kind halts the model in `BadInput`. The model does not follow `cin`'s failbit semantics or the tokenisation of raw characters (for example, `cin >> op` reading only the first character of a longer word).
- When the input runs out, the model stops. End-of-file behaviour is not modelled.
- Session.Operate: `+`, `-` and `*` are exact over `real`, so double rounding is not modelled. The double quotient and `pow` are uninterpreted parameters (`FloatOps`), so infinities and NaN are not modelled either.
- Session.Next: a directive word of 10 or more UTF-8 bytes ends in `Undefined`, as under C++17 and earlier. Input in another multi-byte encoding is not modelled: the word's size is always its UTF-8 byte count. The C++20 extraction into `char[10]`, which stops after 9 bytes and leaves the rest of the word for the next read, is not modelled.
- Session.Trunc: it is exact over `real`, so double operands that are infinite or NaN are not modelled.
- IntHelpers.Factorial: it requires a <= 12 because the C++ loop's signed overflow for larger `a` is undefined behaviour. The session models that case as the `Undefined` phase.
- IntHelpers.Div: it requires b != 0 and excludes MinInt32 / -1. Both are undefined behaviour in C++ (division by zero, and a quotient that overflows).
- IntHelpers.Search: it requires the array to hold at least n elements. This is stronger than the source needs: the C++ scan stays inside the array whenever x occurs before the array's end, even if n is larger. The model takes the usual convention that n is the array's length or less.
