/**
 * `infixToPostfix`: the shunting-yard compiler of the search page. `&` has
 * precedence 2 and `|` precedence 1, both left-associative; an unmatched ")"
 * is an error; whatever is left on the operator stack at the end, an
 * unmatched "(" included, is appended to the output from the bottom of the
 * stack to its top.
 */
module ShuntingYard {
  import opened Wrappers

  datatype CompileResult = Postfix(output: seq<string>) | MismatchedParentheses

  /** A key of the `operations` table. */
  predicate IsOperator(t: string)
  {
    t == "&" || t == "|"
  }

  /** A token that is neither an operator nor a parenthesis. */
  predicate IsOperand(t: string)
  {
    !IsOperator(t) && t != "(" && t != ")"
  }

  /** The precedence the operator table gives `op`: "&" binds tighter than "|". */
  function Precedence(op: string): nat
  {
    if op == "&" then 2 else if op == "|" then 1 else 0
  }

  /** The operator table makes both operators left-associative. */
  predicate LeftAssociative(op: string)
  {
    IsOperator(op)
  }

  /** The condition of the operator branch's `while`: `top` leaves the stack before `token` goes on. */
  predicate Yields(top: string, token: string)
  {
    top != "(" && (Precedence(top) > Precedence(token)
                   || (Precedence(top) == Precedence(token) && LeftAssociative(token)))
  }

  /** The operator branch's `while`: pop the operators that yield to `token` onto the output. */
  function PopYielding(out: seq<string>, ops: seq<string>, token: string): (seq<string>, seq<string>)
    decreases |ops|
  {
    if |ops| > 0 && Yields(ops[|ops| - 1], token) then
      PopYielding(out + [ops[|ops| - 1]], ops[..|ops| - 1], token)
    else
      (out, ops)
  }

  /**
   * The ")" branch: pop operators onto the output down to the nearest "(",
   * which is discarded; with no "(" on the stack the result is the error.
   */
  function PopToOpen(out: seq<string>, ops: seq<string>): Option<(seq<string>, seq<string>)>
    decreases |ops|
  {
    if |ops| == 0 then None
    else if ops[|ops| - 1] == "(" then Some((out, ops[..|ops| - 1]))
    else PopToOpen(out + [ops[|ops| - 1]], ops[..|ops| - 1])
  }

  /** One iteration of the `forEach` over the tokens, on (output queue, operator stack). */
  function Step(out: seq<string>, ops: seq<string>, token: string): Option<(seq<string>, seq<string>)>
  {
    if IsOperator(token) then
      var (o, s) := PopYielding(out, ops, token);
      Some((o, s + [token]))
    else if token == "(" then Some((out, ops + ["("]))
    else if token == ")" then PopToOpen(out, ops)
    else Some((out + [token], ops))
  }

  /** The rest of the compilation from a given state: the remaining tokens, then the leftovers bottom-up. */
  function Run(tokens: seq<string>, out: seq<string>, ops: seq<string>): CompileResult
    decreases |tokens|
  {
    if tokens == [] then Postfix(out + ops)
    else
      match Step(out, ops, tokens[0])
      case None => MismatchedParentheses
      case Some((o, s)) => Run(tokens[1..], o, s)
  }

  function Compile(tokens: seq<string>): CompileResult
  {
    Run(tokens, [], [])
  }

  /** `infixToPostfix(queryTokens)`, with the thrown error as `MismatchedParentheses`. */
  method InfixToPostfix(queryTokens: seq<string>) returns (r: CompileResult)
    ensures r == Compile(queryTokens)
  {
    var outputQueue: seq<string> := [];
    var operatorStack: seq<string> := [];
    for i := 0 to |queryTokens|
      invariant Run(queryTokens[i..], outputQueue, operatorStack) == Compile(queryTokens)
    {
      assert queryTokens[i..][1..] == queryTokens[i + 1..];
      var token := queryTokens[i];
      var opLen := |operatorStack|;
      if IsOperator(token) {
        ghost var start := PopYielding(outputQueue, operatorStack, token);
        while opLen > 0 && Yields(operatorStack[opLen - 1], token)
          invariant opLen == |operatorStack|
          invariant PopYielding(outputQueue, operatorStack, token) == start
        {
          outputQueue := outputQueue + [operatorStack[opLen - 1]];
          operatorStack := operatorStack[..opLen - 1];
          opLen := opLen - 1;
        }
        operatorStack := operatorStack + [token];
      } else if token == "(" {
        operatorStack := operatorStack + [token];
      } else if token == ")" {
        ghost var start := PopToOpen(outputQueue, operatorStack);
        while opLen > 0 && operatorStack[opLen - 1] != "("
          invariant opLen == |operatorStack|
          invariant PopToOpen(outputQueue, operatorStack) == start
        {
          var op := operatorStack[opLen - 1];
          operatorStack := operatorStack[..opLen - 1];
          opLen := opLen - 1;
          outputQueue := outputQueue + [op];
        }
        if opLen <= 0 {
          return MismatchedParentheses;
        }
        operatorStack := operatorStack[..opLen - 1];
      } else {
        outputQueue := outputQueue + [token];
      }
    }
    ghost var out0 := outputQueue;
    for k := 0 to |operatorStack|
      invariant outputQueue == out0 + operatorStack[..k]
    {
      outputQueue := outputQueue + [operatorStack[k]];
    }
    assert operatorStack[..|operatorStack|] == operatorStack;
    r := Postfix(outputQueue);
  }

  // ---------------------------------------------------------------------------
  // Parenthesis balance

  function Opens(s: seq<string>): nat
  {
    multiset(s)["("]
  }

  function Closes(s: seq<string>): nat
  {
    multiset(s)[")"]
  }

  /** Some prefix of `tokens` closes more than `open` plus what it opens itself. */
  predicate Unbalanced(tokens: seq<string>, open: nat)
  {
    exists i :: 0 <= i <= |tokens| && Closes(tokens[..i]) > Opens(tokens[..i]) + open
  }

  lemma {:induction false} PopYieldingKeepsOpens(out: seq<string>, ops: seq<string>, token: string)
    ensures Opens(PopYielding(out, ops, token).1) == Opens(ops)
    ensures multiset(PopYielding(out, ops, token).0) + multiset(PopYielding(out, ops, token).1)
            == multiset(out) + multiset(ops)
    decreases |ops|
  {
    if |ops| > 0 && Yields(ops[|ops| - 1], token) {
      var init := ops[..|ops| - 1];
      assert ops == init + [ops[|ops| - 1]];
      PopYieldingKeepsOpens(out + [ops[|ops| - 1]], init, token);
    }
  }

  lemma {:induction false} PopToOpenRemovesOne(out: seq<string>, ops: seq<string>)
    ensures PopToOpen(out, ops).None? <==> Opens(ops) == 0
    ensures PopToOpen(out, ops).Some? ==>
              Opens(PopToOpen(out, ops).value.1) + 1 == Opens(ops)
              && multiset(PopToOpen(out, ops).value.0) + multiset(PopToOpen(out, ops).value.1) + multiset{"("}
                 == multiset(out) + multiset(ops)
    decreases |ops|
  {
    if |ops| > 0 {
      var init := ops[..|ops| - 1];
      assert ops == init + [ops[|ops| - 1]];
      if ops[|ops| - 1] != "(" {
        PopToOpenRemovesOne(out + [ops[|ops| - 1]], init);
      }
    }
  }

  /** How one token changes the number of "(" on the operator stack, and when it fails. */
  lemma StepOpens(out: seq<string>, ops: seq<string>, token: string)
    ensures Step(out, ops, token).None? <==> token == ")" && Opens(ops) == 0
    ensures Step(out, ops, token).Some? ==>
              Opens(Step(out, ops, token).value.1) + Closes([token]) == Opens(ops) + Opens([token])
  {
    if IsOperator(token) {
      PopYieldingKeepsOpens(out, ops, token);
      var s := PopYielding(out, ops, token).1;
      assert multiset(s + [token]) == multiset(s) + multiset{token};
    } else if token == ")" {
      PopToOpenRemovesOne(out, ops);
    } else if token == "(" {
      assert multiset(ops + ["("]) == multiset(ops) + multiset{"("};
    }
  }

  lemma PrefixCons(x: string, rest: seq<string>, j: nat)
    requires j <= |rest|
    ensures Opens(([x] + rest)[..j + 1]) == Opens([x]) + Opens(rest[..j])
    ensures Closes(([x] + rest)[..j + 1]) == Closes([x]) + Closes(rest[..j])
  {
    assert ([x] + rest)[..j + 1] == [x] + rest[..j];
  }

  /** Unbalanced prefixes after one token, with the pending "(" count updated by that token. */
  lemma UnbalancedCons(x: string, rest: seq<string>, p: nat, q: nat)
    requires q + Closes([x]) == p + Opens([x])
    ensures Unbalanced([x] + rest, p) <==> Unbalanced(rest, q)
  {
    var tokens := [x] + rest;
    if Unbalanced(rest, q) {
      var j :| 0 <= j <= |rest| && Closes(rest[..j]) > Opens(rest[..j]) + q;
      PrefixCons(x, rest, j);
      assert Closes(tokens[..j + 1]) > Opens(tokens[..j + 1]) + p;
    }
    if Unbalanced(tokens, p) {
      var i :| 0 <= i <= |tokens| && Closes(tokens[..i]) > Opens(tokens[..i]) + p;
      assert tokens[..0] == [];
      assert i != 0;
      PrefixCons(x, rest, i - 1);
      assert Closes(rest[..i - 1]) > Opens(rest[..i - 1]) + q;
    }
  }

  /** Compilation from a state with `Opens(ops)` pending "(" fails exactly on an unbalanced prefix. */
  lemma {:induction false} RunMismatch(tokens: seq<string>, out: seq<string>, ops: seq<string>)
    ensures Run(tokens, out, ops).MismatchedParentheses? <==> Unbalanced(tokens, Opens(ops))
    decreases |tokens|
  {
    if tokens != [] {
      var x, rest := tokens[0], tokens[1..];
      assert tokens == [x] + rest;
      StepOpens(out, ops, x);
      match Step(out, ops, x)
      case None =>
        assert multiset([x]) == multiset{")"};
        PrefixCons(x, rest, 0);
        assert rest[..0] == [];
        assert Closes(tokens[..1]) > Opens(tokens[..1]) + Opens(ops);
      case Some((o, s)) =>
        RunMismatch(rest, o, s);
        UnbalancedCons(x, rest, Opens(ops), Opens(s));
    }
  }

  /**
   * `infixToPostfix` throws "Mismatched parentheses" exactly when some
   * prefix of the tokens holds more ")" than "(", that is, when a ")"
   * arrives while no "(" is on the operator stack.
   */
  lemma CompileMismatch(tokens: seq<string>)
    ensures Compile(tokens).MismatchedParentheses? <==>
              exists i :: 0 <= i <= |tokens| && Closes(tokens[..i]) > Opens(tokens[..i])
  {
    RunMismatch(tokens, [], []);
  }

  // ---------------------------------------------------------------------------
  // What reaches the output

  /** The operand tokens of a sequence, in order. */
  function Operands(s: seq<string>): seq<string>
  {
    if s == [] then [] else (if IsOperand(s[0]) then [s[0]] else []) + Operands(s[1..])
  }

  lemma {:induction false} OperandsAppend(a: seq<string>, b: seq<string>)
    ensures Operands(a + b) == Operands(a) + Operands(b)
  {
    if a != [] {
      assert (a + b)[1..] == a[1..] + b;
      OperandsAppend(a[1..], b);
    } else {
      assert a + b == b;
    }
  }

  /** The operator stack only ever holds operators and "(". */
  predicate StackShape(ops: seq<string>)
  {
    forall k :: 0 <= k < |ops| ==> IsOperator(ops[k]) || ops[k] == "("
  }

  lemma {:induction false} NoOperandsOnStack(ops: seq<string>)
    requires StackShape(ops)
    ensures Operands(ops) == []
  {
    if ops != [] {
      NoOperandsOnStack(ops[1..]);
    }
  }

  lemma {:induction false} PopYieldingOperands(out: seq<string>, ops: seq<string>, token: string)
    requires StackShape(ops)
    ensures StackShape(PopYielding(out, ops, token).1)
    ensures Operands(PopYielding(out, ops, token).0) == Operands(out)
    decreases |ops|
  {
    if |ops| > 0 && Yields(ops[|ops| - 1], token) {
      OperandsAppend(out, [ops[|ops| - 1]]);
      PopYieldingOperands(out + [ops[|ops| - 1]], ops[..|ops| - 1], token);
    }
  }

  lemma {:induction false} PopToOpenOperands(out: seq<string>, ops: seq<string>)
    requires StackShape(ops)
    ensures PopToOpen(out, ops).Some? ==>
              StackShape(PopToOpen(out, ops).value.1) && Operands(PopToOpen(out, ops).value.0) == Operands(out)
    decreases |ops|
  {
    if |ops| > 0 && ops[|ops| - 1] != "(" {
      OperandsAppend(out, [ops[|ops| - 1]]);
      PopToOpenOperands(out + [ops[|ops| - 1]], ops[..|ops| - 1]);
    }
  }

  lemma StepOperands(out: seq<string>, ops: seq<string>, x: string)
    requires StackShape(ops)
    ensures Step(out, ops, x).Some? ==>
              && StackShape(Step(out, ops, x).value.1)
              && Operands(Step(out, ops, x).value.0) == Operands(out) + Operands([x])
  {
    assert Operands([x]) == (if IsOperand(x) then [x] else []) + Operands([]);
    if IsOperator(x) {
      PopYieldingOperands(out, ops, x);
      assert Operands(out) + [] == Operands(out);
    } else if x == ")" {
      PopToOpenOperands(out, ops);
      assert Operands(out) + [] == Operands(out);
    } else if x == "(" {
      assert Operands(out) + [] == Operands(out);
    } else {
      OperandsAppend(out, [x]);
    }
  }

  lemma {:induction false} RunOperands(tokens: seq<string>, out: seq<string>, ops: seq<string>)
    requires StackShape(ops)
    ensures Run(tokens, out, ops).Postfix? ==>
              Operands(Run(tokens, out, ops).output) == Operands(out) + Operands(tokens)
    decreases |tokens|
  {
    if tokens == [] {
      OperandsAppend(out, ops);
      NoOperandsOnStack(ops);
    } else {
      var x, rest := tokens[0], tokens[1..];
      assert tokens == [x] + rest;
      OperandsAppend([x], rest);
      StepOperands(out, ops, x);
      match Step(out, ops, x)
      case None =>
      case Some((o, s)) =>
        assert Run(tokens, out, ops) == Run(rest, o, s);
        RunOperands(rest, o, s);
    }
  }

  /** Operand tokens reach the output in their input order, and none is dropped. */
  lemma CompileKeepsOperands(tokens: seq<string>)
    ensures Compile(tokens).Postfix? ==> Operands(Compile(tokens).output) == Operands(tokens)
  {
    RunOperands(tokens, [], []);
  }

  /** `k` copies of "(" and of ")". */
  function ParenPairs(k: nat): multiset<string>
  {
    multiset{}["(" := k][")" := k]
  }

  lemma StepMultiset(out: seq<string>, ops: seq<string>, x: string)
    ensures Step(out, ops, x).Some? ==>
              multiset(Step(out, ops, x).value.0) + multiset(Step(out, ops, x).value.1) + ParenPairs(Closes([x]))
              == multiset(out) + multiset(ops) + multiset{x}
  {
    if IsOperator(x) {
      PopYieldingKeepsOpens(out, ops, x);
      var s := PopYielding(out, ops, x).1;
      assert multiset(s + [x]) == multiset(s) + multiset{x};
      assert ParenPairs(Closes([x])) == multiset{};
    } else if x == ")" {
      PopToOpenRemovesOne(out, ops);
      assert ParenPairs(Closes([x])) == multiset{"(", ")"};
    } else if x == "(" {
      assert multiset(ops + [x]) == multiset(ops) + multiset{x};
      assert ParenPairs(Closes([x])) == multiset{};
    } else {
      assert multiset(out + [x]) == multiset(out) + multiset{x};
      assert ParenPairs(Closes([x])) == multiset{};
    }
  }

  lemma ParenPairsAdd(a: nat, b: nat)
    ensures ParenPairs(a + b) == ParenPairs(a) + ParenPairs(b)
  {
  }

  lemma {:induction false} RunMultiset(tokens: seq<string>, out: seq<string>, ops: seq<string>)
    ensures Run(tokens, out, ops).Postfix? ==>
              multiset(Run(tokens, out, ops).output) + ParenPairs(Closes(tokens))
              == multiset(out) + multiset(ops) + multiset(tokens)
    decreases |tokens|
  {
    if tokens == [] {
      assert ParenPairs(0) == multiset{};
    } else {
      var x, rest := tokens[0], tokens[1..];
      assert tokens == [x] + rest;
      assert multiset(tokens) == multiset{x} + multiset(rest);
      assert Closes(tokens) == Closes([x]) + Closes(rest);
      ParenPairsAdd(Closes([x]), Closes(rest));
      StepMultiset(out, ops, x);
      match Step(out, ops, x)
      case None =>
      case Some((o, s)) =>
        RunMultiset(rest, o, s);
        assert Run(tokens, out, ops) == Run(rest, o, s);
        if Run(rest, o, s).Postfix? {
          var r := Run(rest, o, s).output;
          calc {
            multiset(r) + ParenPairs(Closes(tokens));
            multiset(r) + ParenPairs(Closes(rest)) + ParenPairs(Closes([x]));
            multiset(o) + multiset(s) + multiset(rest) + ParenPairs(Closes([x]));
            multiset(out) + multiset(ops) + multiset{x} + multiset(rest);
          }
        }
    }
  }

  /**
   * Every operator and operand token reaches the output; each ")" is dropped
   * together with one "(", and any "(" left unmatched is output.
   */
  lemma CompileMultiset(tokens: seq<string>)
    ensures Compile(tokens).Postfix? ==>
              multiset(Compile(tokens).output) + ParenPairs(Closes(tokens)) == multiset(tokens)
  {
    RunMultiset(tokens, [], []);
  }

  // ---------------------------------------------------------------------------
  // Examples

  /** `a & b | c` compiles to `a b & c |`. */
  lemma AndThenOr(a: string, b: string, c: string)
    requires IsOperand(a) && IsOperand(b) && IsOperand(c)
    ensures Compile([a, "&", b, "|", c]) == Postfix([a, b, "&", c, "|"])
  {
    var t := [a, "&", b, "|", c];
    var e: seq<string> := [];
    assert IsOperator("&") && IsOperator("|");
    assert e + [a] == [a];
    assert Step(e, e, a) == Some(([a], e));
    assert Run(t, e, e) == Run(t[1..], [a], e);
    assert PopYielding([a], e, "&") == ([a], e);
    assert e + ["&"] == ["&"];
    assert Step([a], e, "&") == Some(([a], ["&"]));
    assert Run(t[1..], [a], e) == Run(t[2..], [a], ["&"]);
    assert [a] + [b] == [a, b];
    assert Step([a], ["&"], b) == Some(([a, b], ["&"]));
    assert Run(t[2..], [a], ["&"]) == Run(t[3..], [a, b], ["&"]);
    assert Yields("&", "|");
    assert [a, b] + ["&"] == [a, b, "&"];
    assert ["&"][..0] == e;
    assert PopYielding([a, b], ["&"], "|") == PopYielding([a, b, "&"], e, "|");
    assert PopYielding([a, b], ["&"], "|") == ([a, b, "&"], e);
    assert e + ["|"] == ["|"];
    assert Step([a, b], ["&"], "|") == Some(([a, b, "&"], ["|"]));
    assert Run(t[3..], [a, b], ["&"]) == Run(t[4..], [a, b, "&"], ["|"]);
    assert [a, b, "&"] + [c] == [a, b, "&", c];
    assert Step([a, b, "&"], ["|"], c) == Some(([a, b, "&", c], ["|"]));
    assert Run(t[4..], [a, b, "&"], ["|"]) == Run([], [a, b, "&", c], ["|"]);
  }

  /**
   * `a | b & c` compiles to `a b c | &`: the leftover operators are appended
   * from the bottom of the stack up, not popped.
   */
  lemma OrThenAnd(a: string, b: string, c: string)
    requires IsOperand(a) && IsOperand(b) && IsOperand(c)
    ensures Compile([a, "|", b, "&", c]) == Postfix([a, b, c, "|", "&"])
  {
    var t := [a, "|", b, "&", c];
    var e: seq<string> := [];
    assert IsOperator("&") && IsOperator("|") && !Yields("|", "&");
    assert e + [a] == [a];
    assert Step(e, e, a) == Some(([a], e));
    assert Run(t, e, e) == Run(t[1..], [a], e);
    assert PopYielding([a], e, "|") == ([a], e);
    assert e + ["|"] == ["|"];
    assert Step([a], e, "|") == Some(([a], ["|"]));
    assert Run(t[1..], [a], e) == Run(t[2..], [a], ["|"]);
    assert [a] + [b] == [a, b];
    assert Step([a], ["|"], b) == Some(([a, b], ["|"]));
    assert Run(t[2..], [a], ["|"]) == Run(t[3..], [a, b], ["|"]);
    assert PopYielding([a, b], ["|"], "&") == ([a, b], ["|"]);
    assert ["|"] + ["&"] == ["|", "&"];
    assert Step([a, b], ["|"], "&") == Some(([a, b], ["|", "&"]));
    assert Run(t[3..], [a, b], ["|"]) == Run(t[4..], [a, b], ["|", "&"]);
    assert [a, b] + [c] == [a, b, c];
    assert Step([a, b], ["|", "&"], c) == Some(([a, b, c], ["|", "&"]));
    assert Run(t[4..], [a, b], ["|", "&"]) == Run([], [a, b, c], ["|", "&"]);
  }

  /** An unmatched "(" is not an error: it ends up in the output. */
  lemma UnmatchedOpen(a: string)
    requires IsOperand(a)
    ensures Compile(["(", a]) == Postfix([a, "("])
  {
    var t := ["(", a];
    var e: seq<string> := [];
    assert !IsOperator("(");
    assert e + ["("] == ["("];
    assert Step(e, e, "(") == Some((e, ["("]));
    assert Run(t, e, e) == Run(t[1..], e, ["("]);
    assert e + [a] == [a];
    assert Step(e, ["("], a) == Some(([a], ["("]));
    assert Run(t[1..], e, ["("]) == Run([], [a], ["("]);
  }

  /**
   * `( a op b` with its ")" missing is no error either: the "(" stays below
   * the operator and both are output after the operands, the "(" first.
   */
  lemma OpenGroup(a: string, op: string, b: string)
    requires IsOperand(a) && IsOperand(b) && IsOperator(op)
    ensures Compile(["(", a, op, b]) == Postfix([a, b, "(", op])
  {
    var t := ["(", a, op, b];
    var e: seq<string> := [];
    assert !IsOperator("(");
    assert e + ["("] == ["("];
    assert Step(e, e, "(") == Some((e, ["("]));
    assert Run(t, e, e) == Run(t[1..], e, ["("]);
    assert e + [a] == [a];
    assert Step(e, ["("], a) == Some(([a], ["("]));
    assert Run(t[1..], e, ["("]) == Run(t[2..], [a], ["("]);
    assert PopYielding([a], ["("], op) == ([a], ["("]);
    assert ["("] + [op] == ["(", op];
    assert Step([a], ["("], op) == Some(([a], ["(", op]));
    assert Run(t[2..], [a], ["("]) == Run(t[3..], [a], ["(", op]);
    assert !IsOperator(b) && b != "(" && b != ")";
    assert [a] + [b] == [a, b];
    assert Step([a], ["(", op], b) == Some(([a, b], ["(", op]));
    assert Run(t[3..], [a], ["(", op]) == Run([], [a, b], ["(", op]);
  }

  /** `a & b` compiles to `a b &`, and `a | b` to `a b |`. */
  lemma BinaryQuery(a: string, op: string, b: string)
    requires IsOperand(a) && IsOperand(b) && IsOperator(op)
    ensures Compile([a, op, b]) == Postfix([a, b, op])
  {
    var t := [a, op, b];
    var e: seq<string> := [];
    assert e + [a] == [a];
    assert Step(e, e, a) == Some(([a], e));
    assert Run(t, e, e) == Run(t[1..], [a], e);
    assert PopYielding([a], e, op) == ([a], e);
    assert e + [op] == [op];
    assert Step([a], e, op) == Some(([a], [op]));
    assert Run(t[1..], [a], e) == Run(t[2..], [a], [op]);
    assert [a] + [b] == [a, b];
    assert Step([a], [op], b) == Some(([a, b], [op]));
    assert Run(t[2..], [a], [op]) == Run([], [a, b], [op]);
  }

  /** Operands with no operator between them pass through in order. */
  lemma OperandsOnly(a: string, b: string)
    requires IsOperand(a) && IsOperand(b)
    ensures Compile([a]) == Postfix([a])
    ensures Compile([a, b]) == Postfix([a, b])
  {
    var e: seq<string> := [];
    assert e + [a] == [a];
    assert Step(e, e, a) == Some(([a], e));
    assert Run([a], e, e) == Run([], [a], e);
    assert [a] + [b] == [a, b];
    assert Step([a], e, b) == Some(([a, b], e));
    assert [a, b][1..] == [b];
    assert Run([a, b], e, e) == Run([b], [a], e);
    assert Run([b], [a], e) == Run([], [a, b], e);
  }

  /** A lone operator is copied to the output. */
  lemma LoneOperator(op: string)
    requires IsOperator(op)
    ensures Compile([op]) == Postfix([op])
  {
    var e: seq<string> := [];
    assert PopYielding(e, e, op) == (e, e);
    assert e + [op] == [op];
    assert Step(e, e, op) == Some((e, [op]));
    assert Run([op], e, e) == Run([], e, [op]);
  }

  /** A ")" with no "(" before it is the mismatched-parentheses error. */
  lemma UnmatchedClose(a: string)
    requires IsOperand(a)
    ensures Compile([a, ")"]) == MismatchedParentheses
  {
    var e: seq<string> := [];
    assert e + [a] == [a];
    assert Step(e, e, a) == Some(([a], e));
    assert Run([a, ")"], e, e) == Run([")"], [a], e);
    assert Step([a], e, ")") == None;
  }
}
