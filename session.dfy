/**
  The interactive session of the calculator's `main`: a loop driven by the
  labels `start:` (read a fresh left operand), `reused:` (read an operator for
  the current left operand) and `end:`, over three doubles: the left operand
  `a`, the result `r` and the one-slot `memory`, which starts at 0.

  Console input is an abstract sequence of tokens, each already extracted by
  one `cin >>`. The doubles are exact reals; the double quotient and `pow`
  are not interpreted and are given as parameters.
*/
module Session {
  import opened Wrappers
  import opened IntHelpers

  /** One extraction from `cin`: a number (into a double), a single
      character (into `op`) or a word (into the buffer `choice`). */
  datatype Token = Number(value: real) | Symbol(c: char) | Word(text: string)

  /** The double operations the model does not interpret: `a / b` (which
      yields an infinity or NaN for b = 0) and `pow(a, b)`. */
  datatype FloatOps = FloatOps(quotient: (real, real) -> real, power: (real, real) -> real)

  /** Where the program is. The three halting phases are `Done` (label
      `end:`), `Undefined` (the C++ program has undefined behaviour from
      here on) and `BadInput` (a token of the wrong kind arrived, so the
      extraction failed). */
  datatype Phase =
    | ReadLeft            // `start:`, about to read `a`
    | ReadOp              // `reused:`, about to read `op`
    | ReadRight(op: char) // about to read `b` for a binary operator
    | MemoryDirective     // about to read `mi`, `mc` or another word
    | FlowDirective       // about to read `restart`, `reuse`, `quit`, `mr` or another word
    | Done
    | Undefined
    | BadInput

  /** The variables of `main`. `r` is None until the first assignment: it is
      declared without an initial value. `printed` holds every value echoed
      as `=<r>`. */
  datatype State = State(phase: Phase, a: real, r: Option<real>, memory: real, printed: seq<real>)

  /** The number of bytes a character takes in UTF-8, the encoding in which
      a terminal hands a word to `cin >> choice`. */
  function Utf8Width(c: char): (w: nat)
    ensures 1 <= w <= 4
    ensures w == 1 <==> c as int < 0x80
  {
    if c as int < 0x80 then 1
    else if c as int < 0x800 then 2
    else if c as int < 0x1_0000 then 3
    else 4
  }

  /** The number of bytes a word takes in `char choice[10]`, terminator not
      counted: at least one and at most four per character. */
  function Utf8Length(w: string): (n: nat)
    ensures |w| <= n <= 4 * |w|
  {
    if w == [] then 0 else Utf8Width(w[0]) + Utf8Length(w[1..])
  }

  /** A word takes one byte per character exactly when it is ASCII; any
      other word needs more bytes than it has characters. */
  lemma {:induction false} Utf8LengthIsCharCountIffAscii(w: string)
    ensures Utf8Length(w) == |w| <==> forall i :: 0 <= i < |w| ==> w[i] as int < 0x80
    decreases |w|
  {
    if w != [] {
      Utf8LengthIsCharCountIffAscii(w[1..]);
      assert forall i :: 1 <= i < |w| ==> w[i] == w[1..][i - 1];
    }
  }

  /** `char choice[10]` holds a word of at most 9 bytes and its terminator.
      Under C++17 and earlier, `cin >> choice` writes a longer word past the
      end of the array, which is undefined; the model follows those standards,
      which the source was written for. From C++20 on, extraction stops after
      9 bytes and the rest of the word becomes the next token. */
  const ChoiceCapacity: nat := 10

  predicate Halted(p: Phase) {
    p.Done? || p.Undefined? || p.BadInput?
  }

  /** The state on entry to `main`: memory is 0, nothing has been computed.
      `a` has no initial value in the source but is read before it is used. */
  function Initial(): State {
    State(ReadLeft, 0.0, None, 0.0, [])
  }

  /** The conversion of a double to `int`: the fractional part is discarded. */
  function Trunc(x: real): (n: int)
    ensures 0.0 <= x ==> n as real <= x < n as real + 1.0
    ensures x < 0.0 ==> n as real - 1.0 < x <= n as real
  {
    if x >= 0.0 then x.Floor else -((-x).Floor)
  }

  /** `r = factorial(a)`: None when the conversion of `a` to `int` is out of
      range or the factorial loop overflows, both undefined behaviour. */
  function FactorialOf(a: real): (r: Option<real>)
    ensures r.Some? <==> MinInt32 <= Trunc(a) <= 12
    ensures r.Some? ==> 1.0 <= r.value
  {
    var n := Trunc(a);
    if MinInt32 <= n <= 12 then Some(Fact(n) as real) else None
  }

  /** The exact product of two reals. `Apply` names it rather than writing
      `a * b` inline, so that the session lemmas can state the `*` result in
      the same term; the solver does not reliably prove facts about the
      inline product of a datatype field and a variable. */
  function Times(x: real, y: real): real {
    x * y
  }

  /** The chain of `if (op == ...)` tests after `cin >> b`: an operator that
      matches none of them leaves `r` as it was. */
  function Apply(ops: FloatOps, op: char, a: real, b: real, r: Option<real>): Option<real> {
    if op == '+' then Some(a + b)
    else if op == '-' then Some(a - b)
    else if op == '*' then Some(Times(a, b))
    else if op == '/' then Some(ops.quotient(a, b))
    else if op == '^' then Some(ops.power(a, b))
    else r
  }

  /** `cout << "=" << r`: echoing an `r` that was never assigned is undefined. */
  function Show(s: State, r: Option<real>): State {
    match r
    case Some(v) => s.(r := r, printed := s.printed + [v], phase := MemoryDirective)
    case None => s.(phase := Undefined)
  }

  /** One extraction from `cin` and everything `main` does before the next. */
  function Next(ops: FloatOps, s: State, t: Token): (s': State)
    ensures Halted(s.phase) ==> s' == s
    ensures s'.memory != s.memory ==> s.phase == MemoryDirective && t in {Word("mi"), Word("mc")}
    ensures s'.a != s.a ==>
              s.phase == ReadLeft || (s.phase == FlowDirective && t in {Word("reuse"), Word("mr")})
    ensures s'.phase == Done && s.phase != Done ==>
              s.phase == FlowDirective && t.Word? && t.text !in {"restart", "reuse", "mr"}
    ensures s'.printed == s.printed || (s'.r.Some? && s'.printed == s.printed + [s'.r.value])
  {
    match s.phase
    case ReadLeft =>
      if t.Number? then s.(a := t.value, phase := ReadOp) else s.(phase := BadInput)
    case ReadOp =>
      if !t.Symbol? then s.(phase := BadInput)
      else if t.c == '!' then Show(s, FactorialOf(s.a))
      else s.(phase := ReadRight(t.c))
    case ReadRight(op) =>
      if t.Number? then Show(s, Apply(ops, op, s.a, t.value, s.r)) else s.(phase := BadInput)
    case MemoryDirective =>
      if !t.Word? then s.(phase := BadInput)
      else if Utf8Length(t.text) >= ChoiceCapacity then s.(phase := Undefined)
      else if t.text == "mi" then
        (match s.r
         case Some(v) => s.(memory := v, phase := FlowDirective)
         case None => s.(phase := Undefined))
      else if t.text == "mc" then s.(memory := 0.0, phase := FlowDirective)
      else s.(phase := FlowDirective)
    case FlowDirective =>
      if !t.Word? then s.(phase := BadInput)
      else if Utf8Length(t.text) >= ChoiceCapacity then s.(phase := Undefined)
      else if t.text == "restart" then s.(phase := ReadLeft)
      else if t.text == "reuse" then
        (match s.r
         case Some(v) => s.(a := v, phase := ReadOp)
         case None => s.(phase := Undefined))
      else if t.text == "quit" then s.(phase := Done)
      else if t.text == "mr" then s.(a := s.memory, phase := ReadOp)
      else s.(phase := Done)
    case Done => s
    case Undefined => s
    case BadInput => s
  }

  /** The session run on a whole input, from state s. */
  function Exec(ops: FloatOps, s: State, input: seq<Token>): State
    decreases |input|
  {
    if input == [] then s else Exec(ops, Next(ops, s, input[0]), input[1..])
  }

  /** Once halted, the session reads nothing more. */
  lemma {:induction false} ExecHalted(ops: FloatOps, s: State, input: seq<Token>)
    requires Halted(s.phase)
    ensures Exec(ops, s, input) == s
    decreases |input|
  {
    if input != [] {
      ExecHalted(ops, Next(ops, s, input[0]), input[1..]);
    }
  }

  /** The `else` block after `cin >> op` for a binary operator: read `b`,
      then test `op` against each operator in turn. It deliberately repeats
      `Apply` in the source's statement form (separate `if`s, each of which
      may assign `r`), so that `Run` keeps the shape of `main`; the
      postcondition proves the two agree. */
  method Operate(ops: FloatOps, op: char, a: real, b: real, r: Option<real>) returns (r': Option<real>)
    ensures r' == Apply(ops, op, a, b, r)
  {
    r' := r;
    if op == '+' { r' := Some(a + b); }
    if op == '-' { r' := Some(a - b); }
    if op == '*' { r' := Some(a * b); }
    if op == '/' { r' := Some(ops.quotient(a, b)); }
    if op == '^' { r' := Some(ops.power(a, b)); }
  }

  /** `main`: the `goto` loop over the token stream, with the labels as
      phases. It stops at `end:`, at undefined behaviour, at a failed
      extraction, or when the input runs out. */
  method Run(ops: FloatOps, input: seq<Token>) returns (s: State)
    ensures s == Exec(ops, Initial(), input)
  {
    var phase := ReadLeft;
    var a: real, r: Option<real>, memory: real := 0.0, None, 0.0;
    var printed: seq<real> := [];
    var i := 0;
    while i < |input| && !Halted(phase)
      invariant 0 <= i <= |input|
      invariant Exec(ops, Initial(), input) == Exec(ops, State(phase, a, r, memory, printed), input[i..])
    {
      var t := input[i];
      ghost var before := State(phase, a, r, memory, printed);
      assert input[i..][0] == t && input[i..][1..] == input[i + 1..];
      match phase {
        case ReadLeft =>
          if t.Number? {
            a := t.value;
            phase := ReadOp;
          } else {
            phase := BadInput;
          }
        case ReadOp =>
          if !t.Symbol? {
            phase := BadInput;
          } else if t.c == '!' {
            var n := Trunc(a);
            if MinInt32 <= n <= 12 {
              var f := Factorial(n);
              r := Some(f as real);
              printed := printed + [f as real];
              phase := MemoryDirective;
            } else {
              phase := Undefined;
            }
          } else {
            phase := ReadRight(t.c);
          }
        case ReadRight(op) =>
          if !t.Number? {
            phase := BadInput;
          } else {
            r := Operate(ops, op, a, t.value, r);
            if r.Some? {
              printed := printed + [r.value];
              phase := MemoryDirective;
            } else {
              phase := Undefined;
            }
          }
        case MemoryDirective =>
          if !t.Word? {
            phase := BadInput;
          } else if Utf8Length(t.text) >= ChoiceCapacity {
            phase := Undefined;
          } else if t.text == "mi" {
            if r.Some? {
              memory := r.value;
              phase := FlowDirective;
            } else {
              phase := Undefined;
            }
          } else if t.text == "mc" {
            memory := 0.0;
            phase := FlowDirective;
          } else {
            // "command unknown, program will go on"
            phase := FlowDirective;
          }
        case FlowDirective =>
          if !t.Word? {
            phase := BadInput;
          } else if Utf8Length(t.text) >= ChoiceCapacity {
            phase := Undefined;
          } else if t.text == "restart" {
            phase := ReadLeft;
          } else if t.text == "reuse" {
            if r.Some? {
              a := r.value;
              phase := ReadOp;
            } else {
              phase := Undefined;
            }
          } else if t.text == "quit" {
            phase := Done;
          } else if t.text == "mr" {
            a := memory;
            phase := ReadOp;
          } else {
            // getchar(), then on to `end:`
            phase := Done;
          }
        case Done =>
          assert false;
        case Undefined =>
          assert false;
        case BadInput =>
          assert false;
      }
      assert State(phase, a, r, memory, printed) == Next(ops, before, t);
      i := i + 1;
    }
    s := State(phase, a, r, memory, printed);
    if i < |input| {
      ExecHalted(ops, s, input[i..]);
    } else {
      assert input[i..] == [];
    }
  }
}
