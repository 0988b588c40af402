/**
 * The postfix evaluator of the search page's click handler: a stack of URL
 * sets; `&` and `|` replace the top two sets by their intersection or
 * union, `!t` pushes the URLs without tag `t`, any other token the URLs with
 * it. An operator meeting fewer than two sets throws inside the `try`, which
 * the handler turns into the error flag.
 */
module Evaluator {
  import opened Wrappers
  import opened Store
  import opened ShuntingYard

  datatype EvalResult = Stack(sets: seq<set<string>>) | Underflow

  /** The URLs an operand selects: a leading "!" selects those without the rest of the tag (`withoutTag`), any other operand those with it (`withTag`). */
  function OperandSet(urls: Urls, op: string): set<string>
  {
    if |op| > 0 && op[0] == '!' then WithoutTag(urls, op[1..]) else WithTag(urls, op)
  }

  /** The rest of the evaluation loop from a given stack (the top is the last element). */
  function EvalFrom(urls: Urls, ops: seq<string>, stack: seq<set<string>>): EvalResult
    decreases |ops|
  {
    if ops == [] then Stack(stack)
    else
      var op := ops[0];
      if IsOperator(op) then
        if |stack| < 2 then Underflow
        else
          var x, y := stack[|stack| - 1], stack[|stack| - 2];
          EvalFrom(urls, ops[1..], stack[..|stack| - 2] + [if op == "&" then y * x else y + x])
      else
        EvalFrom(urls, ops[1..], stack + [OperandSet(urls, op)])
  }

  function Evaluate(urls: Urls, postfix: seq<string>): EvalResult
  {
    EvalFrom(urls, postfix, [])
  }

  /** The list in reverse order (the array `reverse` method), as a value. */
  function Reverse(s: seq<string>): (r: seq<string>)
    ensures |r| == |s| && forall k :: 0 <= k < |s| ==> r[k] == s[|s| - 1 - k]
  {
    seq(|s|, k requires 0 <= k < |s| => s[|s| - 1 - k])
  }

  /**
   * The `while` loop over `infixToPostfix(tagTokens).reverse()`: each step
   * pops the next operation off the end of the reversed list.
   */
  method EvaluatePostfix(urls: Urls, postfix: seq<string>) returns (r: EvalResult)
    ensures r == Evaluate(urls, postfix)
  {
    var rpnOperations := Reverse(postfix);
    var stack: seq<set<string>> := [];
    while |rpnOperations| != 0
      invariant |rpnOperations| <= |postfix|
      invariant forall k :: 0 <= k < |rpnOperations| ==> rpnOperations[k] == postfix[|postfix| - 1 - k]
      invariant EvalFrom(urls, postfix[|postfix| - |rpnOperations|..], stack) == Evaluate(urls, postfix)
      decreases |rpnOperations|
    {
      ghost var rest := postfix[|postfix| - |rpnOperations|..];
      var op := rpnOperations[|rpnOperations| - 1];
      rpnOperations := rpnOperations[..|rpnOperations| - 1];
      assert op == rest[0] && rest[1..] == postfix[|postfix| - |rpnOperations|..];
      if op == "&" || op == "|" {
        if |stack| < 2 {
          // `stack.pop()` yields undefined and `and`/`or` throw on it
          return Underflow;
        }
        ghost var old_stack := stack;
        var x := stack[|stack| - 1];
        stack := stack[..|stack| - 1];
        var y := stack[|stack| - 1];
        stack := stack[..|stack| - 1];
        var combined: Option<set<string>>;
        if op == "&" {
          combined := And([x, y]);
        } else {
          combined := Or([x, y]);
        }
        assert stack == old_stack[..|old_stack| - 2];
        assert x == old_stack[|old_stack| - 1] && y == old_stack[|old_stack| - 2];
        assert combined.value == if op == "&" then y * x else y + x;
        assert EvalFrom(urls, rest, old_stack) == EvalFrom(urls, rest[1..], stack + [combined.value]);
        stack := stack + [combined.value];
      } else {
        stack := stack + [OperandSet(urls, op)];
      }
    }
    r := Stack(stack);
  }

  // ---------------------------------------------------------------------------
  // Properties

  /** Operands minus operators: how much a run of tokens grows the stack. */
  function Height(s: seq<string>): int
  {
    if s == [] then 0 else (if IsOperator(s[0]) then -1 else 1) + Height(s[1..])
  }

  lemma HeightCons(x: string, rest: seq<string>, j: nat)
    requires j <= |rest|
    ensures Height(([x] + rest)[..j + 1]) == Height([x]) + Height(rest[..j])
  {
    assert ([x] + rest)[..j + 1][1..] == rest[..j];
  }

  /** Some operator finds fewer than two sets on a stack that starts at height `h`. */
  predicate Starved(ops: seq<string>, h: int)
  {
    exists i :: 0 <= i < |ops| && IsOperator(ops[i]) && h + Height(ops[..i]) < 2
  }

  /**
   * Evaluation fails exactly when some operator finds fewer than two sets,
   * and otherwise the stack grows by the operand count minus the operator count.
   */
  lemma {:induction false} EvalFromShape(urls: Urls, ops: seq<string>, stack: seq<set<string>>)
    ensures EvalFrom(urls, ops, stack).Underflow? <==> Starved(ops, |stack|)
    ensures EvalFrom(urls, ops, stack).Stack? ==> |EvalFrom(urls, ops, stack).sets| == |stack| + Height(ops)
    decreases |ops|
  {
    if ops != [] {
      var x, rest := ops[0], ops[1..];
      assert ops == [x] + rest;
      assert ops[..0] == [];
      assert Height([x]) == if IsOperator(x) then -1 else 1;
      if IsOperator(x) && |stack| < 2 {
        assert IsOperator(ops[0]) && |stack| + Height(ops[..0]) < 2;
      } else {
        var next := if IsOperator(x) then |stack| - 1 else |stack| + 1;
        StarvedCons(x, rest, |stack|, next);
        if IsOperator(x) {
          var st := stack[..|stack| - 2]
                    + [if x == "&" then stack[|stack| - 2] * stack[|stack| - 1] else stack[|stack| - 2] + stack[|stack| - 1]];
          EvalFromShape(urls, rest, st);
          assert EvalFrom(urls, ops, stack) == EvalFrom(urls, rest, st);
        } else {
          EvalFromShape(urls, rest, stack + [OperandSet(urls, x)]);
        }
      }
    }
  }

  lemma StarvedCons(x: string, rest: seq<string>, h: int, next: int)
    requires !(IsOperator(x) && h < 2)
    requires next == h + Height([x])
    ensures Starved([x] + rest, h) <==> Starved(rest, next)
  {
    var ops := [x] + rest;
    assert ops[..0] == [];
    if Starved(rest, next) {
      var j :| 0 <= j < |rest| && IsOperator(rest[j]) && next + Height(rest[..j]) < 2;
      HeightCons(x, rest, j);
      assert ops[j + 1] == rest[j];
    }
    if Starved(ops, h) {
      var i :| 0 <= i < |ops| && IsOperator(ops[i]) && h + Height(ops[..i]) < 2;
      assert i != 0;
      HeightCons(x, rest, i - 1);
      assert rest[i - 1] == ops[i];
    }
  }

  /** A successful evaluation that started from a non-empty stack or had something to do leaves a set behind. */
  lemma {:induction false} EvalLeavesSet(urls: Urls, ops: seq<string>, stack: seq<set<string>>)
    requires |stack| >= 1 || ops != []
    ensures EvalFrom(urls, ops, stack).Stack? ==> |EvalFrom(urls, ops, stack).sets| >= 1
    decreases |ops|
  {
    if ops != [] {
      var x := ops[0];
      if !IsOperator(x) {
        EvalLeavesSet(urls, ops[1..], stack + [OperandSet(urls, x)]);
      } else if |stack| >= 2 {
        var x, y := stack[|stack| - 1], stack[|stack| - 2];
        EvalLeavesSet(urls, ops[1..], stack[..|stack| - 2] + [if ops[0] == "&" then y * x else y + x]);
      }
    }
  }

  /** Every stack entry is a set of stored URLs. */
  predicate StoredSets(urls: Urls, stack: seq<set<string>>)
  {
    forall k :: 0 <= k < |stack| ==> stack[k] <= urls.Keys
  }

  lemma {:induction false} EvalStaysInStore(urls: Urls, ops: seq<string>, stack: seq<set<string>>)
    requires StoredSets(urls, stack)
    ensures EvalFrom(urls, ops, stack).Stack? ==> StoredSets(urls, EvalFrom(urls, ops, stack).sets)
    decreases |ops|
  {
    if ops != [] {
      var x := ops[0];
      if !IsOperator(x) {
        EvalStaysInStore(urls, ops[1..], stack + [OperandSet(urls, x)]);
      } else if |stack| >= 2 {
        var x, y := stack[|stack| - 1], stack[|stack| - 2];
        EvalStaysInStore(urls, ops[1..], stack[..|stack| - 2] + [if ops[0] == "&" then y * x else y + x]);
      }
    }
  }

  /** The operand sets and everything built from them are sets of stored URLs. */
  lemma EvaluateInStore(urls: Urls, postfix: seq<string>)
    ensures Evaluate(urls, postfix).Stack? ==> StoredSets(urls, Evaluate(urls, postfix).sets)
  {
    EvalStaysInStore(urls, postfix, []);
  }

  /** Evaluating a concatenation evaluates the second part on the stack the first part leaves. */
  lemma {:induction false} EvalFromAppend(urls: Urls, p: seq<string>, q: seq<string>, stack: seq<set<string>>)
    ensures EvalFrom(urls, p + q, stack)
            == match EvalFrom(urls, p, stack)
               case Underflow => Underflow
               case Stack(st) => EvalFrom(urls, q, st)
    decreases |p|
  {
    if p == [] {
      assert p + q == q;
    } else {
      assert (p + q)[0] == p[0] && (p + q)[1..] == p[1..] + q;
      var x := p[0];
      if !IsOperator(x) {
        EvalFromAppend(urls, p[1..], q, stack + [OperandSet(urls, x)]);
      } else if |stack| >= 2 {
        var x, y := stack[|stack| - 1], stack[|stack| - 2];
        EvalFromAppend(urls, p[1..], q, stack[..|stack| - 2] + [if p[0] == "&" then y * x else y + x]);
      }
    }
  }

  /** One operand step of the evaluation. */
  lemma EvalOperand(urls: Urls, op: string, rest: seq<string>, stack: seq<set<string>>)
    requires !IsOperator(op)
    ensures EvalFrom(urls, [op] + rest, stack) == EvalFrom(urls, rest, stack + [OperandSet(urls, op)])
  {
    assert ([op] + rest)[0] == op && ([op] + rest)[1..] == rest;
  }

  /** One operator step of the evaluation on a stack with at least two sets `y` below `x`. */
  lemma EvalOperator(urls: Urls, op: string, rest: seq<string>, below: seq<set<string>>, y: set<string>, x: set<string>)
    requires IsOperator(op)
    ensures EvalFrom(urls, [op] + rest, below + [y, x])
            == EvalFrom(urls, rest, below + [if op == "&" then y * x else y + x])
  {
    var stack := below + [y, x];
    assert ([op] + rest)[0] == op && ([op] + rest)[1..] == rest;
    assert stack[..|stack| - 2] == below;
  }
}
