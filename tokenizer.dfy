/**
 * The query tokenizer of the search page: the tag field is split on spaces,
 * each word is trimmed, blank words are dropped, and each remaining word
 * yields an optional "(", the word with every parenthesis deleted, and an
 * optional ")".
 */
module Tokenizer {
  import opened Text

  /** The words of the query: split at spaces, each piece trimmed, empty pieces dropped. */
  function Words(query: string): (r: seq<string>)
    ensures forall i :: 0 <= i < |r| ==> r[i] != "" && IsTrimmed(r[i]) && ' ' !in r[i]
  {
    TrimmedPieces(query, ' ')
  }

  /** The word with every opening and closing parenthesis deleted. */
  function Strip(word: string): (r: string)
    ensures '(' !in r && ')' !in r
    ensures forall c :: c in r <==> c in word && c != '(' && c != ')'
  {
    DeleteCharMembers(word, '(');
    DeleteCharMembers(DeleteChar(word, '('), ')');
    DeleteChar(DeleteChar(word, '('), ')')
  }

  predicate IsParen(t: string)
  {
    t == "(" || t == ")"
  }

  /** The tokens other than the standalone parentheses, in order. */
  function NonParen(tokens: seq<string>): seq<string>
  {
    if tokens == [] then []
    else (if IsParen(tokens[0]) then [] else [tokens[0]]) + NonParen(tokens[1..])
  }

  lemma {:induction false} NonParenAppend(a: seq<string>, b: seq<string>)
    ensures NonParen(a + b) == NonParen(a) + NonParen(b)
  {
    if a != [] {
      assert (a + b)[1..] == a[1..] + b;
      NonParenAppend(a[1..], b);
    } else {
      assert a + b == b;
    }
  }

  /**
   * The tokens of one word: a "(" can only come first and only when the word
   * starts with one, a ")" only last and only when the word ends with one,
   * and in between stands exactly one operand, the word without parentheses,
   * even when that is empty.
   */
  function WordTokens(word: string): (r: seq<string>)
    ensures 1 <= |r| <= 3
    ensures NonParen(r) == [Strip(word)]
    ensures r[0] == "(" <==> |word| > 0 && word[0] == '('
    ensures r[|r| - 1] == ")" <==> |word| > 0 && word[|word| - 1] == ')'
    ensures forall i :: 0 <= i < |r| && r[i] == "(" ==> i == 0
    ensures forall i :: 0 <= i < |r| && r[i] == ")" ==> i == |r| - 1
  {
    var open := if |word| > 0 && word[0] == '(' then ["("] else [];
    var close := if |word| > 0 && word[|word| - 1] == ')' then [")"] else [];
    var r := open + [Strip(word)] + close;
    assert "(" != Strip(word) by { assert '(' in "("; }
    assert ")" != Strip(word) by { assert ')' in ")"; }
    NonParenAppend(open + [Strip(word)], close);
    NonParenAppend(open, [Strip(word)]);
    r
  }

  /** The tokens of each word in turn, concatenated. */
  function TokensOf(words: seq<string>): seq<string>
  {
    if words == [] then [] else WordTokens(words[0]) + TokensOf(words[1..])
  }

  /** The token list of a query. */
  function Tokenize(query: string): seq<string>
  {
    TokensOf(Words(query))
  }

  /** The words with their parentheses deleted. */
  function StripAll(words: seq<string>): (r: seq<string>)
    ensures |r| == |words|
    ensures forall i :: 0 <= i < |r| ==> r[i] == Strip(words[i])
  {
    if words == [] then [] else [Strip(words[0])] + StripAll(words[1..])
  }

  /** Every token is a standalone parenthesis or contains no parenthesis at all. */
  lemma {:induction false} TokenShape(words: seq<string>)
    ensures forall t :: t in TokensOf(words) ==> IsParen(t) || ('(' !in t && ')' !in t)
  {
    if words != [] {
      TokenShape(words[1..]);
      var w := WordTokens(words[0]);
      forall t | t in w ensures IsParen(t) || ('(' !in t && ')' !in t) {
        if !IsParen(t) {
          var i :| 0 <= i < |w| && w[i] == t;
          NonParenMember(w, i);
        }
      }
    }
  }

  lemma {:induction false} NonParenMember(tokens: seq<string>, i: nat)
    requires i < |tokens| && !IsParen(tokens[i])
    ensures tokens[i] in NonParen(tokens)
  {
    if i > 0 {
      NonParenMember(tokens[1..], i - 1);
    }
  }

  /** Everything `NonParen` keeps is a token of the list and not a parenthesis. */
  lemma {:induction false} NonParenSource(tokens: seq<string>, t: string)
    requires t in NonParen(tokens)
    ensures t in tokens && !IsParen(t)
  {
    if !(tokens[0] == t && !IsParen(t)) {
      NonParenSource(tokens[1..], t);
    }
  }

  /**
   * The operands of the token list are exactly the words with their
   * parentheses deleted, one per word and in order, empty ones included.
   */
  lemma {:induction false} OperandsAreStrippedWords(words: seq<string>)
    ensures NonParen(TokensOf(words)) == StripAll(words)
  {
    if words != [] {
      OperandsAreStrippedWords(words[1..]);
      NonParenAppend(WordTokens(words[0]), TokensOf(words[1..]));
    }
  }

  /** The token list is empty exactly when the query has no non-blank word. */
  lemma TokenizeEmpty(query: string)
    ensures Tokenize(query) == [] <==> Words(query) == []
  {
    OperandsAreStrippedWords(Words(query));
  }

  /** Every query token is a standalone parenthesis or free of parentheses. */
  lemma TokenizeShape(query: string)
    ensures forall t :: t in Tokenize(query) ==> IsParen(t) || ('(' !in t && ')' !in t)
  {
    TokenShape(Words(query));
  }

  /** A query that is a single word yields exactly that word's tokens. */
  lemma SingleWord(w: string)
    requires w != "" && IsTrimmed(w) && ' ' !in w
    ensures Tokenize(w) == WordTokens(w)
  {
    TrimmedPiecesSingle(w, ' ');
    var ws: seq<string> := [w];
    assert ws[1..] == [];
    assert TokensOf(ws) == WordTokens(w) + TokensOf([]);
  }

  /** A word made only of a parenthesis still yields an (empty) operand. */
  lemma LoneParenthesis()
    ensures Tokenize("(") == ["(", ""]
    ensures Tokenize(")") == ["", ")"]
  {
    LoneOpen();
    LoneClose();
  }

  lemma LoneOpen()
    ensures Tokenize("(") == ["(", ""]
  {
    SingleWord("(");
    LoneOpenTokens();
  }

  lemma LoneClose()
    ensures Tokenize(")") == ["", ")"]
  {
    SingleWord(")");
    LoneCloseTokens();
  }

  lemma LoneOpenTokens()
    ensures WordTokens("(") == ["(", ""]
  {
    assert DeleteChar("(", '(') == "";
  }

  lemma LoneCloseTokens()
    ensures WordTokens(")") == ["", ")"]
  {
    assert DeleteChar(")", ')') == "";
  }

  /**
   * Only one parenthesis is peeled off at each end of a word, and the rest
   * are deleted: `((x))` yields the same tokens as `(x)`, so doubled
   * parentheses in one word group only once.
   */
  lemma DoubleParentheses(x: string)
    requires '(' !in x && ')' !in x
    ensures WordTokens("((" + x + "))") == ["(", x, ")"]
    ensures WordTokens("(" + x + ")") == ["(", x, ")"]
  {
    StripWrapped("((", x, "))");
    StripWrapped("(", x, ")");
  }

  lemma StripWrapped(opens: string, x: string, closes: string)
    requires '(' !in x && ')' !in x
    requires opens == "(" || opens == "(("
    requires closes == ")" || closes == "))"
    ensures Strip(opens + x + closes) == x
    ensures (opens + x + closes)[0] == '(' && (opens + x + closes)[|opens + x + closes| - 1] == ')'
  {
    assert DeleteChar(opens, '(') == "";
    assert DeleteChar(closes, ')') == "";
    assert ')' !in opens && '(' !in closes;
    DeleteCharAppend(opens + x, closes, '(');
    DeleteCharAppend(opens, x, '(');
    DeleteCharAbsent(x, '(');
    DeleteCharAbsent(x, ')');
    DeleteCharAbsent(closes, '(');
    assert DeleteChar(opens + x, '(') == x by { assert "" + x == x; }
    assert DeleteChar(opens + x + closes, '(') == x + closes;
    DeleteCharAppend(x, closes, ')');
    assert DeleteChar(x + closes, ')') == x by { assert x + "" == x; }
  }
}
