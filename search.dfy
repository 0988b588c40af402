/**
 * The click handler of the search page, end to end: tokenize the tag query,
 * compile it to postfix, evaluate it against the store, spread the result
 * set into a list and sort the list by fuzzy rank.
 */
module Search {
  import opened Wrappers
  import opened Text
  import opened Store
  import opened Tokenizer
  import opened ShuntingYard
  import opened Evaluator
  import opened Ranking

  /**
   * How a search ends: with results, with the caught evaluation error (the
   * tag field gets its error style and nothing else happens), or with an
   * exception nothing catches (the results area is left as it was).
   */
  datatype Outcome<T> = Results(value: T) | ErrorFlag | Uncaught

  /**
   * The URL set a token list selects: every stored URL for no tokens;
   * otherwise the first set on the evaluation stack, `stack[0]`.
   */
  function FilterTokens(urls: Urls, tokens: seq<string>): Outcome<set<string>>
  {
    if tokens == [] then Results(AllUrls(urls))
    else
      match Compile(tokens)
      case MismatchedParentheses => Uncaught
      case Postfix(postfix) =>
        match Evaluate(urls, postfix)
        case Underflow => ErrorFlag
        // spreading the bottom of an empty stack throws; `NeverEmptyStack` shows this cannot happen
        case Stack(st) => if |st| == 0 then Uncaught else Results(st[0])
  }

  function FilterUrls(urls: Urls, query: string): Outcome<set<string>>
  {
    FilterTokens(urls, Tokenize(query))
  }

  // ---------------------------------------------------------------------------
  // What a query selects

  /** A query with no non-blank word, the empty query among them, selects every stored URL. */
  lemma BlankQuery(urls: Urls, query: string)
    ensures Words(query) == [] ==> FilterUrls(urls, query) == Results(AllUrls(urls))
    ensures FilterUrls(urls, "") == Results(AllUrls(urls))
  {
    TokenizeEmpty(query);
    TokenizeEmpty("");
    TrimmedPiecesEmpty(' ');
  }

  /** Whatever a query selects is a set of stored URLs. */
  lemma FilterInStore(urls: Urls, tokens: seq<string>)
    ensures FilterTokens(urls, tokens).Results? ==> FilterTokens(urls, tokens).value <= urls.Keys
  {
    if tokens != [] && Compile(tokens).Postfix? {
      EvaluateInStore(urls, Compile(tokens).output);
    }
  }

  /**
   * A token list with a token that is not a parenthesis never reaches
   * the spread of the bottom of an empty stack: its postfix form keeps that token,
   * and a postfix run that does not underflow leaves a set behind.
   */
  lemma NeverEmptyStack(urls: Urls, tokens: seq<string>, k: int)
    requires 0 <= k < |tokens| && !IsParen(tokens[k])
    ensures FilterTokens(urls, tokens).Uncaught? ==> Compile(tokens).MismatchedParentheses?
  {
    if Compile(tokens).Postfix? {
      var postfix := Compile(tokens).output;
      CompileMultiset(tokens);
      assert multiset(tokens)[tokens[k]] > 0;
      assert ParenPairs(Closes(tokens))[tokens[k]] == 0;
      assert multiset(postfix)[tokens[k]] > 0;
      assert postfix != [];
      EvalLeavesSet(urls, postfix, []);
    }
  }

  /**
   * A search ends in an uncaught exception exactly when the query has a word
   * and its parentheses are mismatched (by `CompileMismatch`: some prefix of
   * its tokens closes more parentheses than it opens).
   */
  lemma UncaughtIffMismatched(urls: Urls, query: string)
    ensures FilterUrls(urls, query).Uncaught? <==>
              Words(query) != [] && Compile(Tokenize(query)).MismatchedParentheses?
  {
    var tokens := Tokenize(query);
    TokenizeEmpty(query);
    if tokens != [] {
      var k := SomeOperandToken(query);
      NeverEmptyStack(urls, tokens, k);
    }
  }

  /** Every word of a query leaves a token that is not a parenthesis. */
  lemma SomeOperandToken(query: string) returns (k: int)
    requires Words(query) != []
    ensures 0 <= k < |Tokenize(query)| && !IsParen(Tokenize(query)[k])
  {
    var tokens, words := Tokenize(query), Words(query);
    OperandsAreStrippedWords(words);
    assert Strip(words[0]) == NonParen(tokens)[0];
    NonParenSource(tokens, Strip(words[0]));
    k :| 0 <= k < |tokens| && tokens[k] == Strip(words[0]);
  }

  /**
   * A search sets the error flag exactly when its parentheses match and some
   * operator of the postfix form finds fewer than two sets on the stack.
   */
  lemma ErrorFlagIffStarved(urls: Urls, tokens: seq<string>)
    ensures FilterTokens(urls, tokens).ErrorFlag? <==>
              tokens != [] && Compile(tokens).Postfix? && Starved(Compile(tokens).output, 0)
  {
    if tokens != [] && Compile(tokens).Postfix? {
      EvalFromShape(urls, Compile(tokens).output, []);
    }
  }

  // ---------------------------------------------------------------------------
  // Examples on token lists (operands `a`, `b`, `c`)

  /** `a & b` selects the URLs that `a` and `b` both select. */
  lemma AndQuery(urls: Urls, a: string, b: string)
    requires IsOperand(a) && IsOperand(b)
    ensures FilterTokens(urls, [a, "&", b]) == Results(OperandSet(urls, a) * OperandSet(urls, b))
  {
    BinaryQuery(a, "&", b);
    BinaryEvaluation(urls, a, "&", b);
  }

  /** `a | b` selects the URLs that `a` or `b` selects. */
  lemma OrQuery(urls: Urls, a: string, b: string)
    requires IsOperand(a) && IsOperand(b)
    ensures FilterTokens(urls, [a, "|", b]) == Results(OperandSet(urls, a) + OperandSet(urls, b))
  {
    BinaryQuery(a, "|", b);
    BinaryEvaluation(urls, a, "|", b);
  }

  lemma BinaryEvaluation(urls: Urls, a: string, op: string, b: string)
    requires IsOperand(a) && IsOperand(b) && IsOperator(op)
    ensures Evaluate(urls, [a, b, op])
            == Stack([if op == "&" then OperandSet(urls, a) * OperandSet(urls, b)
                      else OperandSet(urls, a) + OperandSet(urls, b)])
  {
    var A, B := OperandSet(urls, a), OperandSet(urls, b);
    var e: seq<set<string>> := [];
    var none: seq<string> := [];
    assert [a, b, op] == [a] + [b, op];
    EvalOperand(urls, a, [b, op], e);
    assert e + [A] == [A];
    assert [b, op] == [b] + [op];
    EvalOperand(urls, b, [op], [A]);
    assert [A] + [B] == e + [A, B];
    assert [op] == [op] + none;
    EvalOperator(urls, op, none, e, A, B);
    assert e + [if op == "&" then A * B else A + B] == [if op == "&" then A * B else A + B];
  }

  /**
   * `a | b & c` selects `a ∩ (b ∪ c)`: the operators left on the stack are
   * output from the bottom up, so `|` is applied first.
   */
  lemma OrThenAndQuery(urls: Urls, a: string, b: string, c: string)
    requires IsOperand(a) && IsOperand(b) && IsOperand(c)
    ensures FilterTokens(urls, [a, "|", b, "&", c])
            == Results(OperandSet(urls, a) * (OperandSet(urls, b) + OperandSet(urls, c)))
  {
    OrThenAnd(a, b, c);
    var A, B, C := OperandSet(urls, a), OperandSet(urls, b), OperandSet(urls, c);
    var e: seq<set<string>> := [];
    var none: seq<string> := [];
    assert [a, b, c, "|", "&"] == [a] + [b, c, "|", "&"];
    EvalOperand(urls, a, [b, c, "|", "&"], e);
    assert e + [A] == [A];
    assert [b, c, "|", "&"] == [b] + [c, "|", "&"];
    EvalOperand(urls, b, [c, "|", "&"], [A]);
    assert [A] + [B] == [A, B];
    assert [c, "|", "&"] == [c] + ["|", "&"];
    EvalOperand(urls, c, ["|", "&"], [A, B]);
    assert [A, B] + [C] == [A] + [B, C];
    assert ["|", "&"] == ["|"] + ["&"];
    EvalOperator(urls, "|", ["&"], [A], B, C);
    assert [A] + [B + C] == e + [A, B + C];
    assert ["&"] == ["&"] + none;
    EvalOperator(urls, "&", none, e, A, B + C);
    assert e + [A * (B + C)] == [A * (B + C)];
  }

  /** `a & b | c` selects `(a ∩ b) ∪ c`. */
  lemma AndThenOrQuery(urls: Urls, a: string, b: string, c: string)
    requires IsOperand(a) && IsOperand(b) && IsOperand(c)
    ensures FilterTokens(urls, [a, "&", b, "|", c])
            == Results(OperandSet(urls, a) * OperandSet(urls, b) + OperandSet(urls, c))
  {
    AndThenOr(a, b, c);
    var A, B, C := OperandSet(urls, a), OperandSet(urls, b), OperandSet(urls, c);
    var e: seq<set<string>> := [];
    var none: seq<string> := [];
    assert [a, b, "&", c, "|"] == [a] + [b, "&", c, "|"];
    EvalOperand(urls, a, [b, "&", c, "|"], e);
    assert e + [A] == [A];
    assert [b, "&", c, "|"] == [b] + ["&", c, "|"];
    EvalOperand(urls, b, ["&", c, "|"], [A]);
    assert [A] + [B] == e + [A, B];
    assert ["&", c, "|"] == ["&"] + [c, "|"];
    EvalOperator(urls, "&", [c, "|"], e, A, B);
    assert e + [A * B] == [A * B];
    assert [c, "|"] == [c] + ["|"];
    EvalOperand(urls, c, ["|"], [A * B]);
    assert [A * B] + [C] == e + [A * B, C];
    assert ["|"] == ["|"] + none;
    EvalOperator(urls, "|", none, e, A * B, C);
    assert e + [A * B + C] == [A * B + C];
  }

  /**
   * An unmatched "(" is no error: it is output last, evaluated as a tag
   * named "(", and ignored, since only the bottom of the stack is read.
   */
  lemma UnmatchedOpenQuery(urls: Urls, a: string)
    requires IsOperand(a)
    ensures FilterTokens(urls, ["(", a]) == Results(OperandSet(urls, a))
  {
    UnmatchedOpen(a);
    var A := OperandSet(urls, a);
    var e: seq<set<string>> := [];
    var none: seq<string> := [];
    assert [a, "("] == [a] + ["("];
    EvalOperand(urls, a, ["("], e);
    assert e + [A] == [A];
    assert ["("] == ["("] + none;
    EvalOperand(urls, "(", none, [A]);
  }

  /**
   * `( a & b` without its ")" selects only what `a` selects: `b` and the tag
   * "(" are intersected above it on the stack, and only the bottom is read.
   */
  lemma OpenGroupQuery(urls: Urls, a: string, op: string, b: string)
    requires IsOperand(a) && IsOperand(b) && IsOperator(op)
    ensures FilterTokens(urls, ["(", a, op, b]) == Results(OperandSet(urls, a))
  {
    OpenGroup(a, op, b);
    var A, B, P := OperandSet(urls, a), OperandSet(urls, b), OperandSet(urls, "(");
    var e: seq<set<string>> := [];
    var none: seq<string> := [];
    assert [a, b, "(", op] == [a] + [b, "(", op];
    EvalOperand(urls, a, [b, "(", op], e);
    assert e + [A] == [A];
    assert [b, "(", op] == [b] + ["(", op];
    EvalOperand(urls, b, ["(", op], [A]);
    assert [A] + [B] == [A, B];
    assert ["(", op] == ["("] + [op];
    EvalOperand(urls, "(", [op], [A, B]);
    assert [A, B] + [P] == [A] + [B, P];
    assert [op] == [op] + none;
    EvalOperator(urls, op, none, [A], B, P);
  }

  /** An unmatched ")" escapes as an uncaught exception. */
  lemma UnmatchedCloseQuery(urls: Urls, a: string)
    requires IsOperand(a)
    ensures FilterTokens(urls, [a, ")"]) == Uncaught
  {
    UnmatchedClose(a);
  }

  /** A lone operator finds an empty stack: the error flag is set. */
  lemma LoneOperatorQuery(urls: Urls)
    ensures FilterTokens(urls, ["&"]) == ErrorFlag
  {
    LoneOperator("&");
  }

  /** Two operands without an operator: the second set is left on the stack and the first is the result. */
  lemma JuxtaposedQuery(urls: Urls, a: string, b: string)
    requires IsOperand(a) && IsOperand(b)
    ensures FilterTokens(urls, [a, b]) == Results(OperandSet(urls, a))
  {
    OperandsOnly(a, b);
    var A, B := OperandSet(urls, a), OperandSet(urls, b);
    var e: seq<set<string>> := [];
    var none: seq<string> := [];
    assert [a, b] == [a] + [b];
    EvalOperand(urls, a, [b], e);
    assert e + [A] == [A];
    assert [b] == [b] + none;
    EvalOperand(urls, b, none, [A]);
  }

  /** A single operand selects its own set. */
  lemma SingleOperandQuery(urls: Urls, a: string)
    requires IsOperand(a)
    ensures FilterTokens(urls, [a]) == Results(OperandSet(urls, a))
  {
    OperandsOnly(a, a);
    var e: seq<set<string>> := [];
    var none: seq<string> := [];
    assert [a] == [a] + none;
    EvalOperand(urls, a, none, e);
    assert e + [OperandSet(urls, a)] == [OperandSet(urls, a)];
  }

  /** The queries `t` and `!t` split the stored URLs between them. */
  lemma NegationPartition(urls: Urls, t: string)
    requires IsOperand(t) && (t == [] || t[0] != '!')
    ensures FilterTokens(urls, [t]).Results? && FilterTokens(urls, ["!" + t]).Results?
    ensures FilterTokens(urls, [t]).value * FilterTokens(urls, ["!" + t]).value == {}
    ensures FilterTokens(urls, [t]).value + FilterTokens(urls, ["!" + t]).value == AllUrls(urls)
  {
    var n := "!" + t;
    assert n[0] == '!' && n[1..] == t;
    assert IsOperand(n) by { assert n != "&" && n != "|" && n != "(" && n != ")"; }
    SingleOperandQuery(urls, t);
    SingleOperandQuery(urls, n);
    assert OperandSet(urls, n) == WithoutTag(urls, t);
    TagPartition(urls, t);
  }

  // ---------------------------------------------------------------------------
  // The handler

  /** A set spread into an array: its elements, each once (the engine's enumeration order is not modelled). */
  method Spread(s: set<string>) returns (r: seq<string>)
    ensures Distinct(r)
    ensures forall u :: u in r <==> u in s
  {
    r := [];
    var rest := s;
    while rest != {}
      invariant rest <= s
      invariant Distinct(r)
      invariant forall u :: u in r <==> u in s && u !in rest
      decreases |rest|
    {
      var u :| u in rest;
      r := r + [u];
      rest := rest - {u};
    }
  }

  /**
   * The filtering half of the search page's `SUBMIT_BUTTON.onclick`: the
   * URL set the tag query selects, or how the handler stops.
   */
  method FilterQuery(urls: Urls, tagsInput: string) returns (outcome: Outcome<set<string>>)
    ensures outcome == FilterUrls(urls, tagsInput)
    ensures outcome.Results? ==> outcome.value <= urls.Keys
  {
    var tagTokens := Tokenize(tagsInput);
    FilterInStore(urls, tagTokens);
    if |tagTokens| > 0 {
      var compiled := InfixToPostfix(tagTokens);
      if compiled.MismatchedParentheses? {
        return Uncaught;
      }
      var evaluated := EvaluatePostfix(urls, compiled.output);
      if evaluated.Underflow? {
        return ErrorFlag;
      }
      if |evaluated.sets| == 0 {
        return Uncaught;
      }
      outcome := Results(evaluated.sets[0]);
    } else {
      outcome := Results(AllUrls(urls));
    }
  }

  /**
   * The ranking half: `[...filtered]` sorted by the comparator. Every URL
   * of the set appears once, in ascending order of ranking key.
   */
  method RankResults(urls: Urls, filteredSet: set<string>, urlInput: string, nameInput: string)
    returns (ranked: seq<string>)
    requires filteredSet <= urls.Keys
    ensures Distinct(ranked)
    ensures forall u :: u in ranked <==> u in filteredSet
    ensures forall u :: u in ranked ==> u in urls
    ensures forall p, q :: 0 <= p < q < |ranked| ==>
              RankKey(urls, urlInput, nameInput, ranked[p]) <= RankKey(urls, urlInput, nameInput, ranked[q])
  {
    var filtered := Spread(filteredSet);
    var a := new string[|filtered|](k requires 0 <= k < |filtered| => filtered[k]);
    assert a[..] == filtered;
    SortByRank(a, urls, urlInput, nameInput);
    DistinctPermutation(filtered, a[..]);
    ranked := a[..];
    assert forall k :: 0 <= k < |ranked| ==> Keys(ranked, urls, urlInput, nameInput)[k] == RankKey(urls, urlInput, nameInput, ranked[k]);
  }

  /**
   * `SUBMIT_BUTTON.onclick` of the search page on a snapshot of the store
   * and the three input fields: the results are the URLs the tag query
   * selects, each once, in ascending order of ranking key.
   */
  method SearchUrls(urls: Urls, tagsInput: string, urlInput: string, nameInput: string)
    returns (outcome: Outcome<seq<string>>)
    ensures outcome.Results? <==> FilterUrls(urls, tagsInput).Results?
    ensures outcome.ErrorFlag? <==> FilterUrls(urls, tagsInput).ErrorFlag?
    ensures outcome.Results? ==>
              && Distinct(outcome.value)
              && (forall u :: u in outcome.value <==> u in FilterUrls(urls, tagsInput).value)
              && (forall u :: u in outcome.value ==> u in urls)
              && (forall p, q :: 0 <= p < q < |outcome.value| ==>
                    RankKey(urls, urlInput, nameInput, outcome.value[p])
                    <= RankKey(urls, urlInput, nameInput, outcome.value[q]))
  {
    var filtered := FilterQuery(urls, tagsInput);
    match filtered
    case ErrorFlag => outcome := ErrorFlag;
    case Uncaught => outcome := Uncaught;
    case Results(filteredSet) =>
      var ranked := RankResults(urls, filteredSet, urlInput, nameInput);
      outcome := Results(ranked);
  }

  /** A rearrangement of a duplicate-free list is duplicate-free and has the same elements. */
  lemma DistinctPermutation(s: seq<string>, t: seq<string>)
    requires Distinct(s) && multiset(s) == multiset(t)
    ensures Distinct(t)
    ensures forall u :: u in t <==> u in s
  {
    forall u | u in t ensures u in s {
      assert u in multiset(t);
    }
    forall u | u in s ensures u in t {
      assert u in multiset(s);
    }
    DistinctCounts(s);
    forall i, j | 0 <= i < j < |t| ensures t[i] != t[j] {
      if t[i] == t[j] {
        TwiceCounts(t, i, j);
      }
    }
  }

  lemma {:induction false} DistinctCounts(s: seq<string>)
    requires Distinct(s)
    ensures forall u :: multiset(s)[u] <= 1
  {
    if s != [] {
      var init := s[..|s| - 1];
      assert s == init + [s[|s| - 1]];
      DistinctCounts(init);
      assert s[|s| - 1] !in init;
    }
  }

  lemma TwiceCounts(t: seq<string>, i: int, j: int)
    requires 0 <= i < j < |t| && t[i] == t[j]
    ensures multiset(t)[t[i]] >= 2
  {
    assert t == t[..i] + [t[i]] + t[i + 1..j] + [t[j]] + t[j + 1..];
  }
}
