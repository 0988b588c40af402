/**
 * The JavaScript string primitives the bookmark pages rely on, over strings
 * of Unicode scalar values (`char`): `split` on a one-character separator,
 * `trim`, `replaceAll` of one character, ASCII `toLowerCase` and `includes`.
 */
module Text {

  /** The characters `String.prototype.trim` removes: WhiteSpace and LineTerminator. */
  predicate IsWhitespace(c: char)
  {
    c == ' ' || c == '\t' || c == '\n' || c == '\r' || c == '\U{000B}' || c == '\U{000C}'
    || c == '\U{00A0}' || c == '\U{FEFF}' || c == '\U{1680}' || ('\U{2000}' <= c <= '\U{200A}')
    || c == '\U{2028}' || c == '\U{2029}' || c == '\U{202F}' || c == '\U{205F}' || c == '\U{3000}'
  }

  predicate AllWhitespace(s: string)
  {
    forall i :: 0 <= i < |s| ==> IsWhitespace(s[i])
  }

  /** Neither end of `s` is whitespace. */
  predicate IsTrimmed(s: string)
  {
    |s| == 0 || (!IsWhitespace(s[0]) && !IsWhitespace(s[|s| - 1]))
  }

  // ---------------------------------------------------------------------------
  // split

  /**
   * `s.split(sep)` for a one-character separator: the maximal runs between
   * separators, including empty ones; `"".split(sep)` is `[""]`.
   */
  function Split(s: string, sep: char): (r: seq<string>)
    ensures |r| >= 1
    ensures forall i :: 0 <= i < |r| ==> sep !in r[i]
    decreases |s|
  {
    if |s| == 0 then [""]
    else
      var rest := Split(s[1..], sep);
      if s[0] == sep then [""] + rest
      else [[s[0]] + rest[0]] + rest[1..]
  }

  /** `pieces.join(sep)`, the inverse of `Split`. */
  function Join(pieces: seq<string>, sep: char): string
    requires |pieces| >= 1
  {
    if |pieces| == 1 then pieces[0] else pieces[0] + [sep] + Join(pieces[1..], sep)
  }

  lemma {:induction false} JoinSplit(s: string, sep: char)
    ensures Join(Split(s, sep), sep) == s
    decreases |s|
  {
    if |s| > 0 {
      JoinSplit(s[1..], sep);
      var rest := Split(s[1..], sep);
      if s[0] != sep {
        if |rest| == 1 {
          assert Join(Split(s, sep), sep) == [s[0]] + rest[0];
        } else {
          assert rest == [rest[0]] + rest[1..];
          assert Join(Split(s, sep), sep) == [s[0]] + rest[0] + [sep] + Join(rest[1..], sep);
        }
      }
    }
  }

  lemma {:induction false} SplitJoin(pieces: seq<string>, sep: char)
    requires |pieces| >= 1
    requires forall i :: 0 <= i < |pieces| ==> sep !in pieces[i]
    ensures Split(Join(pieces, sep), sep) == pieces
    decreases |pieces|, |pieces[0]|
  {
    var p := pieces[0];
    if |p| == 0 {
      if |pieces| > 1 {
        SplitJoin(pieces[1..], sep);
        var s := Join(pieces, sep);
        assert s == [sep] + Join(pieces[1..], sep);
        assert s[1..] == Join(pieces[1..], sep);
      }
    } else {
      var tail := [p[1..]] + pieces[1..];
      assert tail[1..] == pieces[1..];
      assert forall i :: 0 <= i < |tail| ==> sep !in tail[i] by {
        forall i | 0 <= i < |tail| ensures sep !in tail[i] {
          if i == 0 {
            assert forall c :: c in p[1..] ==> c in p;
          }
        }
      }
      SplitJoin(tail, sep);
      var s := Join(pieces, sep);
      if |pieces| == 1 {
        assert s[1..] == Join(tail, sep);
      } else {
        assert s[1..] == Join(tail, sep);
      }
      assert s[0] == p[0] && p[0] != sep;
      assert [p[0]] + p[1..] == p;
    }
  }

  /** Splitting at a separator splits the pieces on both sides independently. */
  lemma SplitAppend(x: string, y: string, sep: char)
    ensures Split(x + [sep] + y, sep) == Split(x, sep) + Split(y, sep)
  {
    var px, py := Split(x, sep), Split(y, sep);
    JoinSplit(x, sep);
    JoinSplit(y, sep);
    JoinAppend(px, py, sep);
    SplitJoin(px + py, sep);
  }

  lemma {:induction false} JoinAppend(a: seq<string>, b: seq<string>, sep: char)
    requires |a| >= 1 && |b| >= 1
    ensures Join(a + b, sep) == Join(a, sep) + [sep] + Join(b, sep)
    decreases |a|
  {
    if |a| > 1 {
      assert (a + b)[1..] == a[1..] + b;
      JoinAppend(a[1..], b, sep);
    } else {
      assert (a + b)[1..] == b;
    }
  }

  // ---------------------------------------------------------------------------
  // trim

  function TrimStart(s: string): (r: string)
    ensures |r| <= |s| && r == s[|s| - |r|..]
    ensures |r| == 0 || !IsWhitespace(r[0])
    ensures AllWhitespace(s[..|s| - |r|])
  {
    if |s| > 0 && IsWhitespace(s[0]) then TrimStart(s[1..]) else s
  }

  function TrimEnd(s: string): (r: string)
    ensures |r| <= |s| && r == s[..|r|]
    ensures |r| == 0 || !IsWhitespace(r[|r| - 1])
    ensures AllWhitespace(s[|r|..])
  {
    if |s| > 0 && IsWhitespace(s[|s| - 1]) then
      var r := TrimEnd(s[..|s| - 1]);
      assert s[|r|..] == s[..|s| - 1][|r|..] + [s[|s| - 1]];
      WhitespaceAppend(s[..|s| - 1][|r|..], s[|s| - 1]);
      r
    else s
  }

  /**
   * `trim`: the text without its leading and trailing whitespace, that is,
   * the slice of `s` that has whitespace on either side of it and none at
   * either of its own ends.
   */
  function Trim(s: string): (r: string)
    ensures IsTrimmed(r)
    ensures exists k :: SliceBetweenWhitespace(s, r, k)
  {
    TrimSlice(s);
    TrimEnd(TrimStart(s))
  }

  /** `r` is `s[k..k + |r|]`, and everything of `s` before and after it is whitespace. */
  predicate SliceBetweenWhitespace(s: string, r: string, k: int)
  {
    0 <= k <= |s| - |r| && r == s[k..k + |r|] && AllWhitespace(s[..k]) && AllWhitespace(s[k + |r|..])
  }

  lemma TrimSlice(s: string)
    ensures SliceBetweenWhitespace(s, TrimEnd(TrimStart(s)), |s| - |TrimStart(s)|)
  {
    var t := TrimStart(s);
    var r, k := TrimEnd(t), |s| - |t|;
    SliceOfSlice(s, k, t, r);
    assert AllWhitespace(s[k + |r|..]) by { assert s[k + |r|..] == t[|r|..]; }
    assert SliceBetweenWhitespace(s, r, k);
  }

  lemma SliceOfSlice(s: string, k: int, t: string, r: string)
    requires 0 <= k <= |s| && t == s[k..] && |r| <= |t| && r == t[..|r|]
    ensures r == s[k..k + |r|] && s[k + |r|..] == t[|r|..]
  {
  }

  /** A whitespace prefix in front of a text that does not start with whitespace is all `TrimStart` removes. */
  lemma {:induction false} TrimStartPrefix(w: string, u: string)
    requires AllWhitespace(w) && (u == "" || !IsWhitespace(u[0]))
    ensures TrimStart(w + u) == u
    decreases |w|
  {
    if w == [] {
      assert w + u == u;
    } else {
      assert (w + u)[0] == w[0] && (w + u)[1..] == w[1..] + u;
      TrimStartPrefix(w[1..], u);
    }
  }

  /** A whitespace suffix behind a text that does not end with whitespace is all `TrimEnd` removes. */
  lemma {:induction false} TrimEndSuffix(u: string, w: string)
    requires AllWhitespace(w) && (u == "" || !IsWhitespace(u[|u| - 1]))
    ensures TrimEnd(u + w) == u
    decreases |w|
  {
    if w == [] {
      assert u + w == u;
    } else {
      var n := |u + w|;
      assert (u + w)[n - 1] == w[|w| - 1] && (u + w)[..n - 1] == u + w[..|w| - 1];
      TrimEndSuffix(u, w[..|w| - 1]);
    }
  }

  /** The trimmed text is determined by the way it sits in `s`: a trimmed slice with whitespace around it is the trim. */
  lemma TrimUnique(a: string, r: string, b: string)
    requires AllWhitespace(a) && AllWhitespace(b) && IsTrimmed(r)
    ensures Trim(a + r + b) == r
  {
    if r == [] {
      assert a + r + b == (a + b) + "";
      TrimStartPrefix(a + b, "");
    } else {
      assert a + r + b == a + (r + b);
      TrimStartPrefix(a, r + b);
      TrimEndSuffix(r, b);
    }
  }

  /** A text trims to nothing exactly when it is all whitespace. */
  lemma TrimBlank(s: string)
    ensures Trim(s) == "" <==> AllWhitespace(s)
  {
    var r := Trim(s);
    var k :| SliceBetweenWhitespace(s, r, k);
    if r == "" {
      WhitespaceJoined(s, k);
    } else {
      assert s[k] == r[0] && !IsWhitespace(s[k]);
    }
  }

  /** Whitespace on both sides of a cut makes the whole text whitespace. */
  lemma WhitespaceJoined(s: string, k: int)
    requires 0 <= k <= |s| && AllWhitespace(s[..k]) && AllWhitespace(s[k..])
    ensures AllWhitespace(s)
  {
    forall i | 0 <= i < |s| ensures IsWhitespace(s[i]) {
      if i < k { assert s[i] == s[..k][i]; } else { assert s[i] == s[k..][i - k]; }
    }
  }

  lemma WhitespaceAppend(w: string, c: char)
    requires AllWhitespace(w) && IsWhitespace(c)
    ensures AllWhitespace(w + [c])
  {
    forall i | 0 <= i < |w + [c]| ensures IsWhitespace((w + [c])[i]) {
      if i < |w| { assert (w + [c])[i] == w[i]; }
    }
  }

  lemma ThreeParts(s: string, k: int, r: string, c: char)
    requires 0 <= k <= k + |r| <= |s| && r == s[k..k + |r|]
    ensures s + [c] == s[..k] + r + (s[k + |r|..] + [c])
  {
    assert s == s[..k] + s[k..k + |r|] + s[k + |r|..];
  }

  /** A whitespace character behind a text does not change its trimmed form. */
  lemma TrimTrailingWhitespace(s: string, c: char)
    requires IsWhitespace(c)
    ensures Trim(s + [c]) == Trim(s)
  {
    var k := |s| - |TrimStart(s)|;
    var r := Trim(s);
    TrimSlice(s);
    ThreeParts(s, k, r, c);
    WhitespaceAppend(s[k + |r|..], c);
    TrimUnique(s[..k], r, s[k + |r|..] + [c]);
  }

  lemma TrimTrimmed(s: string)
    requires IsTrimmed(s)
    ensures Trim(s) == s
  {
  }

  lemma TrimLeadingWhitespace(c: char, s: string)
    requires IsWhitespace(c)
    ensures Trim([c] + s) == Trim(s)
  {
    assert ([c] + s)[1..] == s;
  }

  /** `Trim` keeps a slice of `s`, so it adds no character. */
  lemma TrimKeepsOut(s: string, c: char)
    requires c !in s
    ensures c !in Trim(s)
  {
    var r := Trim(s);
    var k :| SliceBetweenWhitespace(s, r, k);
    forall i | 0 <= i < |r| ensures r[i] != c {
      assert r[i] == s[k + i];
    }
  }

  /** Every piece trimmed, and the pieces that trim to nothing dropped. */
  function TrimNonEmpty(pieces: seq<string>): (r: seq<string>)
    ensures forall i :: 0 <= i < |r| ==> r[i] != "" && IsTrimmed(r[i])
    ensures |r| <= |pieces|
  {
    if pieces == [] then [] else Kept(pieces[0]) + TrimNonEmpty(pieces[1..])
  }

  /**
   * `TrimNonEmpty` keeps exactly the non-blank pieces, in their order, each
   * as its trim: `pos` lists the positions of the pieces it keeps.
   */
  lemma {:induction false} TrimNonEmptyPositions(pieces: seq<string>) returns (pos: seq<int>)
    ensures SelectedAt(Blanks(pieces), Trims(pieces), TrimNonEmpty(pieces), pos)
  {
    if pieces == [] {
      pos := [];
    } else {
      var tail := TrimNonEmpty(pieces[1..]);
      var rest := TrimNonEmptyPositions(pieces[1..]);
      var blanks, trims := Blanks(pieces), Trims(pieces);
      assert blanks[1..] == Blanks(pieces[1..]) && trims[1..] == Trims(pieces[1..]);
      assert TrimNonEmpty(pieces) == Kept(pieces[0]) + tail;
      if AllWhitespace(pieces[0]) {
        assert Kept(pieces[0]) + tail == tail;
        pos := Shift(rest);
        SelectedSkip(blanks, trims, tail, rest);
      } else {
        pos := [0] + Shift(rest);
        SelectedTake(blanks, trims, tail, rest);
      }
    }
  }

  /** Which pieces are all whitespace. */
  function Blanks(pieces: seq<string>): (r: seq<bool>)
    ensures |r| == |pieces| && forall i :: 0 <= i < |pieces| ==> (r[i] <==> AllWhitespace(pieces[i]))
  {
    seq(|pieces|, i requires 0 <= i < |pieces| => AllWhitespace(pieces[i]))
  }

  /** Every piece trimmed, blank ones included. */
  function Trims(pieces: seq<string>): (r: seq<string>)
    ensures |r| == |pieces| && forall i :: 0 <= i < |pieces| ==> r[i] == Trim(pieces[i])
  {
    seq(|pieces|, i requires 0 <= i < |pieces| => Trim(pieces[i]))
  }

  /**
   * `r` is the values whose `skip` flag is false, in order: `r[j]` is
   * `vals[pos[j]]`, the positions increase and every unskipped position is
   * in `pos`.
   */
  ghost predicate SelectedAt<T>(skip: seq<bool>, vals: seq<T>, r: seq<T>, pos: seq<int>)
    requires |skip| == |vals|
  {
    Picks(skip, vals, r, pos) && Increasing(pos) && Covers(skip, pos)
  }

  ghost predicate Picks<T>(skip: seq<bool>, vals: seq<T>, r: seq<T>, pos: seq<int>)
    requires |skip| == |vals|
  {
    |pos| == |r| && forall j :: 0 <= j < |pos| ==> 0 <= pos[j] < |vals| && !skip[pos[j]] && r[j] == vals[pos[j]]
  }

  ghost predicate Increasing(pos: seq<int>)
  {
    forall j, k :: 0 <= j < k < |pos| ==> pos[j] < pos[k]
  }

  ghost predicate Covers(skip: seq<bool>, pos: seq<int>)
  {
    forall i :: 0 <= i < |skip| && !skip[i] ==> i in pos
  }

  function Shift(pos: seq<int>): (r: seq<int>)
    ensures |r| == |pos| && forall j :: 0 <= j < |pos| ==> r[j] == pos[j] + 1
  {
    seq(|pos|, j requires 0 <= j < |pos| => pos[j] + 1)
  }

  lemma SelectedSkip<T>(skip: seq<bool>, vals: seq<T>, r: seq<T>, rest: seq<int>)
    requires |skip| == |vals| >= 1 && skip[0] && SelectedAt(skip[1..], vals[1..], r, rest)
    ensures SelectedAt(skip, vals, r, Shift(rest))
  {
    CoversSkip(skip, rest);
  }

  lemma SelectedTake<T>(skip: seq<bool>, vals: seq<T>, r: seq<T>, rest: seq<int>)
    requires |skip| == |vals| >= 1 && !skip[0] && SelectedAt(skip[1..], vals[1..], r, rest)
    ensures SelectedAt(skip, vals, [vals[0]] + r, [0] + Shift(rest))
  {
    PicksTake(skip, vals, r, rest);
    IncreasingTake(rest);
    CoversTake(skip, rest);
  }

  lemma CoversSkip(skip: seq<bool>, rest: seq<int>)
    requires |skip| >= 1 && skip[0] && Covers(skip[1..], rest)
    ensures Covers(skip, Shift(rest))
  {
    var pos := Shift(rest);
    forall i | 0 <= i < |skip| && !skip[i] ensures i in pos {
      assert i > 0 && skip[1..][i - 1] == skip[i];
      var j :| 0 <= j < |rest| && rest[j] == i - 1;
      assert pos[j] == i;
    }
  }

  lemma PicksTake<T>(skip: seq<bool>, vals: seq<T>, r: seq<T>, rest: seq<int>)
    requires |skip| == |vals| >= 1 && !skip[0] && Picks(skip[1..], vals[1..], r, rest)
    ensures Picks(skip, vals, [vals[0]] + r, [0] + Shift(rest))
  {
    var pos, r' := [0] + Shift(rest), [vals[0]] + r;
    forall j | 0 < j < |pos| ensures 0 < pos[j] < |vals| && !skip[pos[j]] && r'[j] == vals[pos[j]] {
      assert pos[j] == rest[j - 1] + 1 && r'[j] == r[j - 1];
      assert skip[pos[j]] == skip[1..][rest[j - 1]] && vals[pos[j]] == vals[1..][rest[j - 1]];
    }
  }

  lemma IncreasingTake(rest: seq<int>)
    requires Increasing(rest) && forall j :: 0 <= j < |rest| ==> rest[j] >= 0
    ensures Increasing([0] + Shift(rest))
  {
    var pos := [0] + Shift(rest);
    forall j, k | 0 <= j < k < |pos| ensures pos[j] < pos[k] {
      if j > 0 { assert rest[j - 1] < rest[k - 1]; }
    }
  }

  lemma CoversTake(skip: seq<bool>, rest: seq<int>)
    requires |skip| >= 1 && Covers(skip[1..], rest)
    ensures Covers(skip, [0] + Shift(rest))
  {
    var pos := [0] + Shift(rest);
    forall i | 0 < i < |skip| && !skip[i] ensures i in pos {
      assert skip[1..][i - 1] == skip[i];
      var j :| 0 <= j < |rest| && rest[j] == i - 1;
      assert pos[j + 1] == i;
    }
  }

  /** One piece after trimming: dropped when it is all whitespace, otherwise kept as its trim. */
  function Kept(piece: string): (r: seq<string>)
    ensures |r| <= 1
    ensures forall i :: 0 <= i < |r| ==> r[i] != "" && IsTrimmed(r[i])
    ensures r == [] <==> AllWhitespace(piece)
    ensures r != [] ==> r == [Trim(piece)]
  {
    var t := Trim(piece);
    TrimBlank(piece);
    if t == "" then [] else [t]
  }

  /** Trimming adds no character: a character absent from every piece is absent from the result. */
  lemma {:induction false} TrimNonEmptyAvoids(pieces: seq<string>, c: char)
    requires forall j :: 0 <= j < |pieces| ==> c !in pieces[j]
    ensures forall i :: 0 <= i < |TrimNonEmpty(pieces)| ==> c !in TrimNonEmpty(pieces)[i]
  {
    if pieces != [] {
      TrimKeepsOut(pieces[0], c);
      TrimNonEmptyAvoids(pieces[1..], c);
    }
  }

  lemma {:induction false} TrimNonEmptyAppend(a: seq<string>, b: seq<string>)
    ensures TrimNonEmpty(a + b) == TrimNonEmpty(a) + TrimNonEmpty(b)
  {
    if a != [] {
      assert (a + b)[0] == a[0] && (a + b)[1..] == a[1..] + b;
      assert TrimNonEmpty(a + b) == Kept(a[0]) + TrimNonEmpty(a[1..] + b);
      TrimNonEmptyAppend(a[1..], b);
    } else {
      assert a + b == b;
    }
  }

  /**
   * Split on `sep`, trim every piece and drop the empty ones: the non-blank
   * pieces between separators, trimmed, in order.
   */
  function TrimmedPieces(s: string, sep: char): (r: seq<string>)
    ensures forall i :: 0 <= i < |r| ==> r[i] != "" && IsTrimmed(r[i]) && sep !in r[i]
  {
    TrimNonEmptyAvoids(Split(s, sep), sep);
    TrimNonEmpty(Split(s, sep))
  }

  /** A separator cuts the pieces of the text into those on each side of it. */
  lemma TrimmedPiecesAppend(x: string, y: string, sep: char)
    ensures TrimmedPieces(x + [sep] + y, sep) == TrimmedPieces(x, sep) + TrimmedPieces(y, sep)
  {
    SplitAppend(x, y, sep);
    TrimNonEmptyAppend(Split(x, sep), Split(y, sep));
  }

  /** A separator at the end of the text adds no piece. */
  lemma TrimmedPiecesTrailingSeparator(s: string, sep: char)
    ensures TrimmedPieces(s + [sep], sep) == TrimmedPieces(s, sep)
  {
    var none: string := [];
    var w := s + [sep] + none;
    assert w == s + [sep];
    TrimmedPiecesAppend(s, none, sep);
    TrimmedPiecesEmpty(sep);
  }

  /** The empty text has no pieces. */
  lemma TrimmedPiecesEmpty(sep: char)
    ensures TrimmedPieces("", sep) == []
  {
    assert Split("", sep) == [""];
    assert Trim("") == "";
  }

  /** A piece that is already trimmed, non-empty and free of the separator is the only piece. */
  lemma TrimmedPiecesSingle(t: string, sep: char)
    requires t != "" && IsTrimmed(t) && sep !in t
    ensures TrimmedPieces(t, sep) == [t]
  {
    SplitJoin([t], sep);
  }

  /** Whitespace (other than the separator) in front of the text does not change its pieces. */
  lemma TrimmedPiecesLeadingWhitespace(c: char, s: string, sep: char)
    requires IsWhitespace(c) && c != sep
    ensures TrimmedPieces([c] + s, sep) == TrimmedPieces(s, sep)
  {
    var rest := Split(s, sep);
    assert ([c] + s)[0] == c && ([c] + s)[1..] == s;
    var pieces := Split([c] + s, sep);
    assert pieces == [[c] + rest[0]] + rest[1..];
    TrimLeadingWhitespace(c, rest[0]);
    assert pieces[1..] == rest[1..];
  }

  /** Whitespace (other than the separator) behind the text does not change its pieces. */
  lemma TrimmedPiecesTrailingWhitespace(s: string, c: char, sep: char)
    requires IsWhitespace(c) && c != sep
    ensures TrimmedPieces(s + [c], sep) == TrimmedPieces(s, sep)
  {
    SplitSnoc(s, c, sep);
    TrimNonEmptySnoc(Split(s, sep), c);
  }

  /** Whitespace behind the last piece does not change the trimmed pieces. */
  lemma TrimNonEmptySnoc(p: seq<string>, c: char)
    requires |p| >= 1 && IsWhitespace(c)
    ensures TrimNonEmpty(Snoc(p, c)) == TrimNonEmpty(p)
  {
    var init, last := p[..|p| - 1], p[|p| - 1];
    InitLast(p);
    TrimNonEmptyAppend(init, [last + [c]]);
    TrimNonEmptyAppend(init, [last]);
    KeptTrailingWhitespace(last, c);
  }

  lemma InitLast(p: seq<string>)
    requires |p| >= 1
    ensures p == p[..|p| - 1] + [p[|p| - 1]]
  {
  }

  lemma KeptTrailingWhitespace(s: string, c: char)
    requires IsWhitespace(c)
    ensures TrimNonEmpty([s + [c]]) == TrimNonEmpty([s])
  {
    TrimTrailingWhitespace(s, c);
    assert TrimNonEmpty([s + [c]]) == Kept(s + [c]) + TrimNonEmpty([]);
    assert TrimNonEmpty([s]) == Kept(s) + TrimNonEmpty([]);
  }

  /** A character other than the separator appended to the text extends its last piece. */
  lemma {:induction false} SplitSnoc(s: string, c: char, sep: char)
    requires c != sep
    ensures Split(s + [c], sep) == Snoc(Split(s, sep), c)
    decreases |s|
  {
    if |s| == 0 {
      assert s + [c] == [c] && [c][1..] == "";
      var rest := Split([c][1..], sep);
      assert rest == [""];
      assert [c] + rest[0] == [c] && rest[1..] == [];
      assert Split([c], sep) == [[c] + rest[0]] + rest[1..] == [[c]];
      assert Split(s, sep) == [""] && Snoc([""], c) == [[c]];
    } else {
      var q := Split(s[1..], sep);
      assert (s + [c])[0] == s[0] && (s + [c])[1..] == s[1..] + [c];
      SplitSnoc(s[1..], c, sep);
      if s[0] == sep {
        SnocCons("", q, c);
      } else {
        SnocHead([s[0]], q, c);
      }
    }
  }

  /** `pieces` with `c` appended to its last piece. */
  function Snoc(pieces: seq<string>, c: char): (r: seq<string>)
    requires |pieces| >= 1
    ensures |r| == |pieces| && r[..|r| - 1] == pieces[..|pieces| - 1]
  {
    pieces[..|pieces| - 1] + [pieces[|pieces| - 1] + [c]]
  }

  lemma SnocCons(x: string, q: seq<string>, c: char)
    requires |q| >= 1
    ensures [x] + Snoc(q, c) == Snoc([x] + q, c)
  {
    assert ([x] + q)[..|q|] == [x] + q[..|q| - 1];
  }

  lemma SnocHead(h: string, q: seq<string>, c: char)
    requires |q| >= 1
    ensures var rest := Snoc(q, c);
            [h + rest[0]] + rest[1..] == Snoc([h + q[0]] + q[1..], c)
  {
    var rest := Snoc(q, c);
    if |q| == 1 {
      assert h + (q[0] + [c]) == (h + q[0]) + [c];
    } else {
      assert rest[0] == q[0];
      assert ([h + q[0]] + q[1..])[..|q| - 1] == [h + q[0]] + q[1..|q| - 1];
    }
  }

  // ---------------------------------------------------------------------------
  // replaceAll, toLowerCase, includes

  /** `replaceAll` of a one-character pattern by nothing: every `c` deleted. */
  function DeleteChar(s: string, c: char): (r: string)
    ensures |r| <= |s|
  {
    if |s| == 0 then ""
    else (if s[0] == c then "" else [s[0]]) + DeleteChar(s[1..], c)
  }

  /** `DeleteChar` keeps exactly the characters other than `c`. */
  lemma {:induction false} DeleteCharMembers(s: string, c: char)
    ensures forall x :: x in DeleteChar(s, c) <==> x in s && x != c
  {
    if |s| > 0 {
      DeleteCharMembers(s[1..], c);
      assert s == [s[0]] + s[1..];
    }
  }

  /** A text without `c` is left unchanged. */
  lemma {:induction false} DeleteCharAbsent(s: string, c: char)
    requires c !in s
    ensures DeleteChar(s, c) == s
  {
    if |s| > 0 {
      DeleteCharAbsent(s[1..], c);
      assert s == [s[0]] + s[1..];
    }
  }

  lemma {:induction false} DeleteCharAppend(a: string, b: string, c: char)
    ensures DeleteChar(a + b, c) == DeleteChar(a, c) + DeleteChar(b, c)
  {
    if a == [] {
      assert a + b == b;
    } else {
      var head: string := if a[0] == c then "" else [a[0]];
      assert (a + b)[0] == a[0] && (a + b)[1..] == a[1..] + b;
      assert DeleteChar(a + b, c) == head + DeleteChar(a[1..] + b, c);
      DeleteCharAppend(a[1..], b, c);
      assert DeleteChar(a, c) == head + DeleteChar(a[1..], c);
    }
  }

  /** `toLowerCase` on the ASCII range; other characters are left as they are. */
  function LowerChar(c: char): char
  {
    if 'A' <= c <= 'Z' then (c as int + 32) as char else c
  }

  /** `toLowerCase`: each ASCII capital becomes its small letter and every other character is kept. */
  function Lower(s: string): (r: string)
    ensures |r| == |s|
    ensures forall i :: 0 <= i < |r| ==> !('A' <= r[i] <= 'Z')
    ensures forall i :: 0 <= i < |s| && 'A' <= s[i] <= 'Z' ==> r[i] as int == s[i] as int + 32
    ensures forall i :: 0 <= i < |s| && !('A' <= s[i] <= 'Z') ==> r[i] == s[i]
  {
    seq(|s|, i requires 0 <= i < |s| => LowerChar(s[i]))
  }

  lemma LowerIdempotent(s: string)
    ensures Lower(Lower(s)) == Lower(s)
  {
  }

  /** `s.includes(sub)`: `sub` occurs in `s` at some offset. */
  predicate Contains(s: string, sub: string)
  {
    exists i :: 0 <= i <= |s| && OccursAt(s, sub, i)
  }

  predicate OccursAt(s: string, sub: string, i: int)
  {
    0 <= i <= |s| - |sub| && s[i..i + |sub|] == sub
  }

  lemma ContainsEmptyAndSelf(s: string)
    ensures Contains(s, "") && Contains(s, s)
  {
    assert OccursAt(s, "", 0);
    assert OccursAt(s, s, 0);
  }
}
