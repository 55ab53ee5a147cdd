/**
  Properties of the calculator session: what each directive changes and
  what it leaves alone, an invariant every run keeps, and whole runs on
  concrete inputs.
*/
module SessionLemmas {
  import opened Wrappers
  import opened IntHelpers
  import opened Session

  /** Running two pieces of input is running the first, then the second. */
  lemma {:induction false} ExecAppend(ops: FloatOps, s: State, xs: seq<Token>, ys: seq<Token>)
    ensures Exec(ops, s, xs + ys) == Exec(ops, Exec(ops, s, xs), ys)
    decreases |xs|
  {
    if xs == [] {
      assert xs + ys == ys;
    } else {
      assert (xs + ys)[0] == xs[0] && (xs + ys)[1..] == xs[1..] + ys;
      ExecAppend(ops, Next(ops, s, xs[0]), xs[1..], ys);
    }
  }

  lemma ExecOne(ops: FloatOps, s: State, t: Token)
    ensures Exec(ops, s, [t]) == Next(ops, s, t)
  {
    assert [t][1..] == [];
    assert Exec(ops, s, [t]) == Exec(ops, Next(ops, s, t), []);
  }

  lemma ExecTwo(ops: FloatOps, s: State, t1: Token, t2: Token)
    ensures Exec(ops, s, [t1, t2]) == Next(ops, Next(ops, s, t1), t2)
  {
    assert [t1, t2][1..] == [t2];
    assert Exec(ops, s, [t1, t2]) == Exec(ops, Next(ops, s, t1), [t2]);
    ExecOne(ops, Next(ops, s, t1), t2);
  }

  lemma ExecThree(ops: FloatOps, s: State, t1: Token, t2: Token, t3: Token)
    ensures Exec(ops, s, [t1, t2, t3]) == Next(ops, Next(ops, Next(ops, s, t1), t2), t3)
  {
    assert [t1, t2, t3][1..] == [t2, t3];
    assert Exec(ops, s, [t1, t2, t3]) == Exec(ops, Next(ops, s, t1), [t2, t3]);
    ExecTwo(ops, Next(ops, s, t1), t2, t3);
  }

  // ---------------------------------------------------------------------------
  // The result register and the echoed values
  // ---------------------------------------------------------------------------

  /** `r` holds the value echoed last, and is unassigned until the first echo;
      once past the echo, `r` is assigned. */
  ghost predicate Consistent(s: State) {
    && s.r == (if s.printed == [] then None else Some(s.printed[|s.printed| - 1]))
    && (s.phase.MemoryDirective? || s.phase.FlowDirective? ==> s.printed != [])
  }

  lemma InitialConsistent()
    ensures Consistent(Initial())
  {
  }

  lemma NextConsistent(ops: FloatOps, s: State, t: Token)
    requires Consistent(s)
    ensures Consistent(Next(ops, s, t))
  {
  }

  /** Every state a run reaches from a consistent state is consistent. */
  lemma {:induction false} ExecConsistent(ops: FloatOps, s: State, input: seq<Token>)
    requires Consistent(s)
    ensures Consistent(Exec(ops, s, input))
    decreases |input|
  {
    if input != [] {
      NextConsistent(ops, s, input[0]);
      ExecConsistent(ops, Next(ops, s, input[0]), input[1..]);
    }
  }

  /** Along any run of `main`, the only undefined behaviour is a `!` on an
      operand out of range, an unrecognised operator before anything has
      been computed, or a word too long for `choice`. */
  lemma UndefinedCauses(ops: FloatOps, s: State, t: Token)
    requires Consistent(s) && !Halted(s.phase)
    requires Next(ops, s, t).phase == Undefined
    ensures || (s.phase == ReadOp && t == Symbol('!') && !(MinInt32 <= Trunc(s.a) <= 12))
            || (s.phase.ReadRight? && s.phase.op !in "+-*/^" && s.printed == [])
            || (t.Word? && Utf8Length(t.text) >= ChoiceCapacity)
  {
  }

  // ---------------------------------------------------------------------------
  // The operator step (`reused:`)
  // ---------------------------------------------------------------------------

  /** `!` reads no second operand: the result is echoed at once. */
  lemma FactorialReadsNoOperand(ops: FloatOps, s: State)
    requires s.phase == ReadOp && MinInt32 <= Trunc(s.a) <= 12
    ensures var f := Fact(Trunc(s.a)) as real;
            Next(ops, s, Symbol('!')) == s.(r := Some(f), printed := s.printed + [f], phase := MemoryDirective)
  {
  }

  /** Every other operator reads exactly one operand, then the result is
      echoed; `+`, `-` and `*` compute the exact sum, difference, product. */
  lemma {:induction false} BinaryOperatorReadsOneOperand(ops: FloatOps, s: State, c: char, b: real)
    requires s.phase == ReadOp && c != '!'
    ensures Next(ops, s, Symbol(c)) == s.(phase := ReadRight(c))
    ensures Exec(ops, s, [Symbol(c), Number(b)]) == Show(s, Apply(ops, c, s.a, b, s.r))
    ensures var s' := Exec(ops, s, [Symbol(c), Number(b)]);
            && (c == '+' ==> s'.r == Some(s.a + b))
            && (c == '-' ==> s'.r == Some(s.a - b))
            && (c == '*' ==> s'.r == Some(Times(s.a, b)))
            && (c == '/' ==> s'.r == Some(ops.quotient(s.a, b)))
            && (c == '^' ==> s'.r == Some(ops.power(s.a, b)))
  {
    assert Exec(ops, s, [Symbol(c), Number(b)]) == Show(s, Apply(ops, c, s.a, b, s.r)) by {
      ExecTwo(ops, s, Symbol(c), Number(b));
    }
  }

  /** An unrecognised operator still reads a second operand, leaves the
      result as it was, and echoes it again. */
  lemma {:induction false} UnknownOperatorKeepsResult(ops: FloatOps, s: State, c: char, b: real, v: real)
    requires s.phase == ReadOp && s.r == Some(v) && c !in "+-*/^!"
    ensures Exec(ops, s, [Symbol(c), Number(b)]) == s.(printed := s.printed + [v], phase := MemoryDirective)
  {
    ExecTwo(ops, s, Symbol(c), Number(b));
  }

  // ---------------------------------------------------------------------------
  // The memory directive
  // ---------------------------------------------------------------------------

  /** `mi` stores the result, `mc` clears the memory, any other word leaves
      it alone; the session always goes on to the flow directive and no
      other variable changes. */
  lemma MemoryDirectiveStep(ops: FloatOps, s: State, w: string, v: real)
    requires s.phase == MemoryDirective && s.r == Some(v) && Utf8Length(w) < ChoiceCapacity
    ensures Next(ops, s, Word(w)) ==
              s.(memory := if w == "mi" then v else if w == "mc" then 0.0 else s.memory,
                 phase := FlowDirective)
  {
  }

  /** Along a run with no `mi` and no `mc`, the memory never changes. */
  lemma {:induction false} MemoryNeedsDirective(ops: FloatOps, s: State, input: seq<Token>)
    requires forall k :: 0 <= k < |input| ==> input[k] != Word("mi") && input[k] != Word("mc")
    ensures Exec(ops, s, input).memory == s.memory
    decreases |input|
  {
    if input != [] {
      MemoryNeedsDirective(ops, Next(ops, s, input[0]), input[1..]);
    }
  }

  /** The memory is 0 until the first `mi`, however often it is cleared or
      the session restarted. */
  lemma {:induction false} MemoryZeroUntilStored(ops: FloatOps, s: State, input: seq<Token>)
    requires s.memory == 0.0
    requires forall k :: 0 <= k < |input| ==> input[k] != Word("mi")
    ensures Exec(ops, s, input).memory == 0.0
    decreases |input|
  {
    if input != [] {
      MemoryZeroUntilStored(ops, Next(ops, s, input[0]), input[1..]);
    }
  }

  // ---------------------------------------------------------------------------
  // The flow directive
  // ---------------------------------------------------------------------------

  /** `restart` goes back to `start:`, `reuse` and `mr` set the left operand
      to the result or the memory and go back to `reused:`, and `quit` or any
      other word ends the program. */
  lemma FlowDirectiveStep(ops: FloatOps, s: State, w: string, v: real)
    requires s.phase == FlowDirective && s.r == Some(v) && Utf8Length(w) < ChoiceCapacity
    ensures Next(ops, s, Word(w)) ==
              if w == "restart" then s.(phase := ReadLeft)
              else if w == "reuse" then s.(a := v, phase := ReadOp)
              else if w == "mr" then s.(a := s.memory, phase := ReadOp)
              else s.(phase := Done)
  {
  }

  /** After `reuse` the next operator is applied to the result, with no new
      left operand read. */
  lemma {:induction false} ReuseResumesWithResult(ops: FloatOps, s: State, v: real, c: char, b: real)
    requires s.phase == FlowDirective && s.r == Some(v) && c != '!'
    ensures Exec(ops, s, [Word("reuse"), Symbol(c), Number(b)]) == Show(s.(a := v), Apply(ops, c, v, b, s.r))
  {
    ExecThree(ops, s, Word("reuse"), Symbol(c), Number(b));
  }

  /** After `mr` the next operator is applied to the memory. */
  lemma {:induction false} RecallResumesWithMemory(ops: FloatOps, s: State, c: char, b: real)
    requires s.phase == FlowDirective && c != '!'
    ensures Exec(ops, s, [Word("mr"), Symbol(c), Number(b)]) == Show(s.(a := s.memory), Apply(ops, c, s.memory, b, s.r))
  {
    ExecThree(ops, s, Word("mr"), Symbol(c), Number(b));
  }

  /** `restart` reads a fresh left operand and keeps both the memory and the
      previous result, which an unrecognised operator would echo again. */
  lemma {:induction false} RestartKeepsMemoryAndResult(ops: FloatOps, s: State, x: real)
    requires s.phase == FlowDirective
    ensures Exec(ops, s, [Word("restart"), Number(x)]) == s.(a := x, phase := ReadOp)
  {
    ExecTwo(ops, s, Word("restart"), Number(x));
  }

  /** A run that reaches `end:` gets there on a flow directive: at some
      point the run stands at the flow prompt, reads a word other than
      `restart`, `reuse` and `mr`, and is in `Done` right after it. */
  lemma {:induction false} DoneOnlyByFlowDirective(ops: FloatOps, s: State, input: seq<Token>)
    requires s.phase != Done && Exec(ops, s, input).phase == Done
    ensures exists k :: 0 <= k < |input| && Exec(ops, s, input[..k]).phase == FlowDirective
              && input[k].Word? && input[k].text !in {"restart", "reuse", "mr"}
              && Exec(ops, s, input[..k + 1]).phase == Done
    decreases |input|
  {
    assert input != [];
    var s1 := Next(ops, s, input[0]);
    if s1.phase == Done {
      assert input[..0] == [];
      assert input[..1] == [input[0]];
      ExecOne(ops, s, input[0]);
    } else {
      var rest := input[1..];
      DoneOnlyByFlowDirective(ops, s1, rest);
      var k :| 0 <= k < |rest| && Exec(ops, s1, rest[..k]).phase == FlowDirective
               && rest[k].Word? && rest[k].text !in {"restart", "reuse", "mr"}
               && Exec(ops, s1, rest[..k + 1]).phase == Done;
      PrefixAfterFirst(ops, s, input, k);
      PrefixAfterFirst(ops, s, input, k + 1);
      assert input[k + 1] == rest[k];
    }
  }

  /** Running a prefix of length j + 1 is running the first token and then
      j more. */
  lemma PrefixAfterFirst(ops: FloatOps, s: State, input: seq<Token>, j: nat)
    requires j < |input|
    ensures Exec(ops, s, input[..j + 1]) == Exec(ops, Next(ops, s, input[0]), input[1..][..j])
  {
    assert input[..j + 1][0] == input[0];
    assert input[..j + 1][1..] == input[1..][..j];
  }

  // ---------------------------------------------------------------------------
  // Whole sessions
  // ---------------------------------------------------------------------------

  /** 10 + 5 echoes 15; `mi` stores it; `mr` + 5 echoes 20. */
  lemma ScenarioStoreAndRecall(ops: FloatOps)
    ensures Exec(ops, Initial(),
                 [Number(10.0), Symbol('+'), Number(5.0), Word("mi"), Word("mr"), Symbol('+'), Number(5.0)])
            == State(MemoryDirective, 15.0, Some(20.0), 15.0, [15.0, 20.0])
  {
  }

  /** 7 ! echoes 5040 without reading a second operand. */
  lemma ScenarioFactorial(ops: FloatOps)
    ensures Exec(ops, Initial(), [Number(7.0), Symbol('!')]) == State(MemoryDirective, 7.0, Some(5040.0), 0.0, [5040.0])
  {
  }

  /** x / 0 is not an error: the quotient (an infinity for doubles) is
      echoed and the session asks for a memory directive. Computing with x
      again takes a restart. */
  lemma ScenarioDivideByZero(ops: FloatOps, x: real)
    ensures var s := Exec(ops, Initial(), [Number(x), Symbol('/'), Number(0.0)]);
            s.phase == MemoryDirective && s.printed == [ops.quotient(x, 0.0)]
    ensures Exec(ops, Initial(),
                 [Number(x), Symbol('/'), Number(0.0), Word("mc"), Word("restart"), Number(x), Symbol('*'), Number(2.0)]).printed
            == [ops.quotient(x, 0.0), 2.0 * x]
  {
    var divide := [Number(x), Symbol('/'), Number(0.0)];
    var again := [Word("mc"), Word("restart"), Number(x), Symbol('*'), Number(2.0)];
    ExecThree(ops, Initial(), Number(x), Symbol('/'), Number(0.0));
    ClearRestartMultiply(ops, Exec(ops, Initial(), divide), x);
    ExecAppend(ops, Initial(), divide, again);
    assert divide + again
        == [Number(x), Symbol('/'), Number(0.0), Word("mc"), Word("restart"), Number(x), Symbol('*'), Number(2.0)];
  }

  /** From the memory prompt, `mc`, `restart`, x * 2 echoes 2x. */
  lemma ClearRestartMultiply(ops: FloatOps, s: State, x: real)
    requires s.phase == MemoryDirective && s.r.Some?
    ensures Exec(ops, s, [Word("mc"), Word("restart"), Number(x), Symbol('*'), Number(2.0)]).printed
            == s.printed + [2.0 * x]
  {
    var s1 := Next(ops, s, Word("mc"));
    assert Utf8Length("mc") == 2;
    MemoryDirectiveStep(ops, s, "mc", s.r.value);
    RestartKeepsMemoryAndResult(ops, s1, x);
    var s3 := Exec(ops, s1, [Word("restart"), Number(x)]);
    ExecTwo(ops, s3, Symbol('*'), Number(2.0));
    ExecAppend(ops, s1, [Word("restart"), Number(x)], [Symbol('*'), Number(2.0)]);
    assert [Word("restart"), Number(x)] + [Symbol('*'), Number(2.0)]
        == [Word("restart"), Number(x), Symbol('*'), Number(2.0)];
    assert [Word("mc"), Word("restart"), Number(x), Symbol('*'), Number(2.0)][1..]
        == [Word("restart"), Number(x), Symbol('*'), Number(2.0)];
  }

  /** `ééééé` is five characters but ten bytes, so with its terminator it
      overflows `choice[10]`. */
  lemma ScenarioWideWordOverflows(ops: FloatOps, s: State)
    requires s.phase == MemoryDirective
    ensures Next(ops, s, Word("ééééé")).phase == Undefined
  {
    assert Utf8Length("ééééé") == 10;
  }

  /** A nine-letter ASCII word still fits in `choice[10]`. */
  lemma ScenarioNineLettersFit(ops: FloatOps, s: State)
    requires s.phase == MemoryDirective
    ensures Next(ops, s, Word("abcdefghi")).phase == FlowDirective
  {
    assert Utf8Length("abcdefghi") == 9;
  }

  /** A flow directive that is none of the four ends the program, and the
      rest of the input is never read. */
  lemma ScenarioUnknownFlowWordEnds(ops: FloatOps, rest: seq<Token>)
    ensures Exec(ops, Initial(), [Number(1.0), Symbol('+'), Number(1.0), Word("mi"), Word("again")] + rest)
            == State(Done, 1.0, Some(2.0), 2.0, [2.0])
  {
    var first := [Number(1.0), Symbol('+'), Number(1.0)];
    var second := [Word("mi"), Word("again")];
    assert first + second + rest == [Number(1.0), Symbol('+'), Number(1.0), Word("mi"), Word("again")] + rest;
    var s3 := State(MemoryDirective, 1.0, Some(2.0), 0.0, [2.0]);
    var s5 := State(Done, 1.0, Some(2.0), 2.0, [2.0]);
    ExecThree(ops, Initial(), Number(1.0), Symbol('+'), Number(1.0));
    assert Exec(ops, Initial(), first) == s3;
    ExecTwo(ops, s3, Word("mi"), Word("again"));
    assert Exec(ops, s3, second) == s5;
    ExecAppend(ops, Initial(), first, second);
    ExecAppend(ops, Initial(), first + second, rest);
    ExecHalted(ops, s5, rest);
  }

  /** An unrecognised operator before any result echoes the uninitialised
      `r`, and a `!` on 13 overflows the factorial loop: both are undefined. */
  lemma ScenarioUndefined(ops: FloatOps)
    ensures Exec(ops, Initial(), [Number(1.0), Symbol('%'), Number(2.0)]).phase == Undefined
    ensures Exec(ops, Initial(), [Number(13.0), Symbol('!')]).phase == Undefined
  {
  }
}
