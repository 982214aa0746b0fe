/**
 * The tokenizer of core/parser.py: every parenthesis is padded with spaces
 * (two successive `str.replace` calls) and the result is split on runs of
 * whitespace (`str.split()` without an argument).
 */
module Parser {

  /** Python's `str.isspace()`: the separators `str.split()` splits on. */
  predicate IsSpace(c: char)
  {
    c == ' ' || ('\t' <= c <= '\r') || ('\U{1c}' <= c <= '\U{1f}')
    || c == '\U{85}' || c == '\U{a0}' || c == '\U{1680}'
    || ('\U{2000}' <= c <= '\U{200a}') || c == '\U{2028}' || c == '\U{2029}'
    || c == '\U{202f}' || c == '\U{205f}' || c == '\U{3000}'
  }

  predicate IsParen(c: char)
  {
    c == '(' || c == ')'
  }

  /** `s.replace(c, r)` for a one-character pattern `c`. */
  function ReplaceChar(s: string, c: char, r: string): string
  {
    if s == [] then []
    else (if s[0] == c then r else [s[0]]) + ReplaceChar(s[1..], c, r)
  }

  /** `s.replace('(', ' ( ').replace(')', ' ) ')` */
  function Pad(s: string): string
  {
    ReplaceChar(ReplaceChar(s, '(', " ( "), ')', " ) ")
  }

  /** Length of the longest prefix of `s` without whitespace. */
  function WordLength(s: string): (n: nat)
    ensures n <= |s|
    ensures forall i :: 0 <= i < n ==> !IsSpace(s[i])
    ensures n < |s| ==> IsSpace(s[n])
  {
    if s == [] || IsSpace(s[0]) then 0 else 1 + WordLength(s[1..])
  }

  /** `s.split()`: maximal runs of non-whitespace, in order. */
  function Split(s: string): seq<string>
    decreases |s|
  {
    if s == [] then []
    else if IsSpace(s[0]) then Split(s[1..])
    else
      var n := WordLength(s);
      [s[..n]] + Split(s[n..])
  }

  /** `tokenize(s)` of core/parser.py. */
  function Tokenize(s: string): seq<string>
  {
    Split(Pad(s))
  }

  /** `' '.join(ts)` */
  function Join(ts: seq<string>): string
  {
    if ts == [] then ""
    else if |ts| == 1 then ts[0]
    else ts[0] + " " + Join(ts[1..])
  }

  /** The concatenation of all tokens, `''.join(ts)`. */
  function Concat(ts: seq<string>): string
  {
    if ts == [] then "" else ts[0] + Concat(ts[1..])
  }

  /** The input with every whitespace character deleted. */
  function RemoveSpaces(s: string): string
  {
    if s == [] then ""
    else (if IsSpace(s[0]) then "" else [s[0]]) + RemoveSpaces(s[1..])
  }

  predicate NoSpace(t: string)
  {
    forall i :: 0 <= i < |t| ==> !IsSpace(t[i])
  }

  predicate ParenFree(t: string)
  {
    forall i :: 0 <= i < |t| ==> !IsParen(t[i])
  }

  /** What every token of `tokenize` looks like: non-empty, without whitespace,
      and either a lone parenthesis or free of parentheses. */
  predicate WellFormedToken(t: string)
  {
    t != "" && NoSpace(t) && (t == "(" || t == ")" || ParenFree(t))
  }

  predicate WellFormedTokens(ts: seq<string>)
  {
    forall i :: 0 <= i < |ts| ==> WellFormedToken(ts[i])
  }

  // ---------------------------------------------------------------------
  // Algebra of the building blocks

  lemma {:induction false} ReplaceConcat(x: string, y: string, c: char, r: string)
    ensures ReplaceChar(x + y, c, r) == ReplaceChar(x, c, r) + ReplaceChar(y, c, r)
    decreases |x|
  {
    if x != [] {
      assert (x + y)[1..] == x[1..] + y;
      ReplaceConcat(x[1..], y, c, r);
    } else {
      assert x + y == y;
    }
  }

  lemma {:induction false} ReplaceAbsent(s: string, c: char, r: string)
    requires forall i :: 0 <= i < |s| ==> s[i] != c
    ensures ReplaceChar(s, c, r) == s
    decreases |s|
  {
    if s != [] {
      ReplaceAbsent(s[1..], c, r);
    }
  }

  /** Padding distributes over concatenation. */
  lemma PadConcat(x: string, y: string)
    ensures Pad(x + y) == Pad(x) + Pad(y)
  {
    ReplaceConcat(x, y, '(', " ( ");
    ReplaceConcat(ReplaceChar(x, '(', " ( "), ReplaceChar(y, '(', " ( "), ')', " ) ");
  }

  /** Padding a single character. */
  lemma PadChar(c: char)
    ensures Pad([c]) == if c == '(' then " ( " else if c == ')' then " ) " else [c]
  {
    assert [c][1..] == [];
    if c == '(' {
      assert ReplaceChar([c], '(', " ( ") == " ( ";
      assert " ( " == [' '] + ([c] + [' ']);
      ReplaceConcat([' '], [c] + [' '], ')', " ) ");
      ReplaceConcat([c], [' '], ')', " ) ");
    } else {
      assert ReplaceChar([c], '(', " ( ") == [c];
      if c == ')' {
        assert ReplaceChar([c], ')', " ) ") == " ) ";
      } else {
        assert ReplaceChar([c], ')', " ) ") == [c];
      }
    }
  }

  lemma PadParenFree(t: string)
    requires ParenFree(t)
    ensures Pad(t) == t
  {
    ReplaceAbsent(t, '(', " ( ");
    ReplaceAbsent(t, ')', " ) ");
  }

  lemma {:induction false} WordLengthConcat(x: string, c: char, y: string)
    requires IsSpace(c)
    ensures WordLength(x + [c] + y) == WordLength(x)
    decreases |x|
  {
    if x == [] {
      assert (x + [c] + y)[0] == c;
    } else if !IsSpace(x[0]) {
      assert (x + [c] + y)[1..] == x[1..] + [c] + y;
      WordLengthConcat(x[1..], c, y);
    }
  }

  /** A whitespace character separates the tokens on its two sides. */
  lemma {:induction false} SplitAtSpace(x: string, c: char, y: string)
    requires IsSpace(c)
    ensures Split(x + [c] + y) == Split(x) + Split(y)
    decreases |x|
  {
    var s := x + [c] + y;
    if x == [] {
      assert s[1..] == y;
    } else if IsSpace(x[0]) {
      assert s[1..] == x[1..] + [c] + y;
      SplitAtSpace(x[1..], c, y);
    } else {
      SplitAtSpace(x[WordLength(x)..], c, y);
      SplitAtSpaceWord(x, c, y);
    }
  }

  /** The step of SplitAtSpace where `x` starts with a word. */
  lemma SplitAtSpaceWord(x: string, c: char, y: string)
    requires IsSpace(c) && x != [] && !IsSpace(x[0])
    requires Split(x[WordLength(x)..] + [c] + y) == Split(x[WordLength(x)..]) + Split(y)
    ensures Split(x + [c] + y) == Split(x) + Split(y)
  {
    var s := x + [c] + y;
    var n := WordLength(x);
    WordLengthConcat(x, c, y);
    assert s[0] == x[0];
    assert Split(s) == [s[..n]] + Split(s[n..]);
    assert Split(x) == [x[..n]] + Split(x[n..]);
    assert s[..n] == x[..n];
    assert s[n..] == x[n..] + [c] + y;
  }

  /** A word without whitespace is a single token. */
  lemma SplitWord(t: string)
    requires t != [] && NoSpace(t)
    ensures Split(t) == [t]
  {
    assert !IsSpace(t[0]);
    WordLengthOfWord(t);
    assert t[..|t|] == t;
    assert t[|t|..] == [];
  }

  lemma {:induction false} WordLengthOfWord(t: string)
    requires NoSpace(t)
    ensures WordLength(t) == |t|
    decreases |t|
  {
    if t != [] {
      WordLengthOfWord(t[1..]);
    }
  }

  lemma {:induction false} SplitSpaces(s: string)
    requires forall i :: 0 <= i < |s| ==> IsSpace(s[i])
    ensures Split(s) == []
    decreases |s|
  {
    if s != [] {
      SplitSpaces(s[1..]);
    }
  }

  // ---------------------------------------------------------------------
  // Properties of tokenize

  lemma WellFormedAppend(a: seq<string>, b: seq<string>)
    requires WellFormedTokens(a) && WellFormedTokens(b)
    ensures WellFormedTokens(a + b)
  {
    forall i | 0 <= i < |a + b| ensures WellFormedToken((a + b)[i]) {
      if i >= |a| { assert (a + b)[i] == b[i - |a|]; }
    }
  }

  /** The tokens of `w`, for a paren-free word `w`, are well formed. */
  lemma WordTokens(w: string)
    requires NoSpace(w) && ParenFree(w)
    ensures WellFormedTokens(Split(w))
  {
    if w != [] { SplitWord(w); }
  }

  /** Case of a parenthesis after the word `w`. */
  lemma SplitPaddedParen(w: string, c: char, p: string)
    requires NoSpace(w) && ParenFree(w) && IsParen(c)
    requires WellFormedTokens(Split(p))
    ensures WellFormedTokens(Split(w + " " + [c] + " " + p))
  {
    var lone: string := [c];
    assert w + " " + [c] + " " + p == w + [' '] + (lone + [' '] + p);
    SplitAtSpace(w, ' ', lone + [' '] + p);
    SplitAtSpace(lone, ' ', p);
    SplitWord(lone);
    WordTokens(w);
    WellFormedAppend([lone], Split(p));
    WellFormedAppend(Split(w), [lone] + Split(p));
  }

  /** Case of a whitespace character after the word `w`. */
  lemma SplitPaddedSpace(w: string, c: char, p: string)
    requires NoSpace(w) && ParenFree(w) && IsSpace(c)
    requires WellFormedTokens(Split(p))
    ensures WellFormedTokens(Split(w + [c] + p))
  {
    SplitAtSpace(w, c, p);
    WordTokens(w);
    WellFormedAppend(Split(w), Split(p));
  }

  /** The tokens of a padded text, when a paren-free word `w` is glued in front. */
  lemma {:induction false} SplitPadded(w: string, s: string)
    requires NoSpace(w) && ParenFree(w)
    ensures WellFormedTokens(Split(w + Pad(s)))
    decreases |s|
  {
    if s == [] {
      assert w + Pad(s) == w;
      WordTokens(w);
    } else {
      var c, rest := s[0], s[1..];
      assert s == [c] + rest;
      if IsParen(c) || IsSpace(c) {
        SplitPadded([], rest);
        assert [] + Pad(rest) == Pad(rest);
        SplitPaddedBreak(w, c, rest);
      } else {
        PadWordChar(w, c, rest);
        SplitPadded(w + [c], rest);
      }
    }
  }

  /** A parenthesis or a whitespace character after the word `w` ends it. */
  lemma SplitPaddedBreak(w: string, c: char, rest: string)
    requires NoSpace(w) && ParenFree(w) && (IsParen(c) || IsSpace(c))
    requires WellFormedTokens(Split(Pad(rest)))
    ensures WellFormedTokens(Split(w + Pad([c] + rest)))
  {
    PadConcat([c], rest);
    PadChar(c);
    var p := Pad(rest);
    if IsParen(c) {
      PadParenBreak(w, c, rest);
      SplitPaddedParen(w, c, p);
    } else {
      assert Pad([c]) == [c];
      assert w + Pad([c] + rest) == w + [c] + p;
      SplitPaddedSpace(w, c, p);
    }
  }

  lemma PadParenBreak(w: string, c: char, rest: string)
    requires IsParen(c)
    ensures w + Pad([c] + rest) == w + " " + [c] + " " + Pad(rest)
  {
    PadConcat([c], rest);
    PadChar(c);
    assert Pad([c]) == " " + [c] + " ";
  }

  /** Any other character joins the word. */
  lemma PadWordChar(w: string, c: char, rest: string)
    requires !IsParen(c) && !IsSpace(c) && NoSpace(w) && ParenFree(w)
    ensures w + Pad([c] + rest) == (w + [c]) + Pad(rest)
    ensures NoSpace(w + [c]) && ParenFree(w + [c])
  {
    PadConcat([c], rest);
    PadChar(c);
  }

  /** No token is empty or contains whitespace; a token holding a
      parenthesis is exactly that one parenthesis. */
  lemma TokensWellFormed(s: string)
    ensures WellFormedTokens(Tokenize(s))
  {
    SplitPadded([], s);
    assert [] + Pad(s) == Pad(s);
  }

  lemma {:induction false} ConcatAppend(a: seq<string>, b: seq<string>)
    ensures Concat(a + b) == Concat(a) + Concat(b)
    decreases |a|
  {
    if a != [] {
      assert (a + b)[1..] == a[1..] + b;
      ConcatAppend(a[1..], b);
    } else {
      assert a + b == b;
    }
  }

  lemma {:induction false} RemoveSpacesAppend(a: string, b: string)
    ensures RemoveSpaces(a + b) == RemoveSpaces(a) + RemoveSpaces(b)
    decreases |a|
  {
    if a != [] {
      assert (a + b)[1..] == a[1..] + b;
      RemoveSpacesAppend(a[1..], b);
    } else {
      assert a + b == b;
    }
  }

  lemma {:induction false} RemoveSpacesOfWord(t: string)
    requires NoSpace(t)
    ensures RemoveSpaces(t) == t
    decreases |t|
  {
    if t != [] {
      RemoveSpacesOfWord(t[1..]);
    }
  }

  lemma {:induction false} ConcatSplit(s: string)
    ensures Concat(Split(s)) == RemoveSpaces(s)
    decreases |s|
  {
    if s != [] {
      if IsSpace(s[0]) {
        ConcatSplit(s[1..]);
      } else {
        var n := WordLength(s);
        ConcatSplit(s[n..]);
        assert s == s[..n] + s[n..];
        RemoveSpacesAppend(s[..n], s[n..]);
        RemoveSpacesOfWord(s[..n]);
        assert Concat([s[..n]] + Split(s[n..])) == s[..n] + Concat(Split(s[n..]));
      }
    }
  }

  lemma {:induction false} RemoveSpacesPad(s: string)
    ensures RemoveSpaces(Pad(s)) == RemoveSpaces(s)
    decreases |s|
  {
    if s == [] {
      assert Pad(s) == [];
    } else {
      assert s == [s[0]] + s[1..];
      PadConcat([s[0]], s[1..]);
      PadChar(s[0]);
      RemoveSpacesAppend(Pad([s[0]]), Pad(s[1..]));
      RemoveSpacesAppend([s[0]], s[1..]);
      RemoveSpacesPad(s[1..]);
      if IsParen(s[0]) {
        var lone: string := [s[0]];
        assert Pad([s[0]]) == [' '] + lone + [' '];
        RemoveSpacesAppend([' '] + lone, [' ']);
        RemoveSpacesAppend([' '], lone);
      }
    }
  }

  /** Concatenating the tokens gives back the input without its whitespace,
      in the original order. */
  lemma TokensConcat(s: string)
    ensures Concat(Tokenize(s)) == RemoveSpaces(s)
  {
    ConcatSplit(Pad(s));
    RemoveSpacesPad(s);
  }

  lemma {:induction false} ConcatCount(ts: seq<string>, p: char)
    requires WellFormedTokens(ts) && IsParen(p)
    ensures multiset(Concat(ts))[p] == multiset(ts)[[p]]
    decreases |ts|
  {
    if ts != [] {
      var t := ts[0];
      assert ts == [t] + ts[1..];
      ConcatCount(ts[1..], p);
      assert multiset(Concat(ts)) == multiset(t) + multiset(Concat(ts[1..]));
      assert multiset(ts) == multiset([t]) + multiset(ts[1..]);
      if t == [p] {
      } else if t == "(" || t == ")" {
        assert multiset(t)[p] == 0;
      } else {
        assert p !in t;
        assert multiset(t)[p] == 0;
      }
    }
  }

  lemma {:induction false} RemoveSpacesCount(s: string, c: char)
    requires !IsSpace(c)
    ensures multiset(RemoveSpaces(s))[c] == multiset(s)[c]
    decreases |s|
  {
    if s != [] {
      assert s == [s[0]] + s[1..];
      RemoveSpacesCount(s[1..], c);
    }
  }

  /** There are as many `(` tokens as `(` characters, and as many `)`
      tokens as `)` characters. */
  lemma ParenCount(s: string, p: char)
    requires IsParen(p)
    ensures multiset(Tokenize(s))[[p]] == multiset(s)[p]
  {
    TokensWellFormed(s);
    ConcatCount(Tokenize(s), p);
    TokensConcat(s);
    RemoveSpacesCount(s, p);
  }

  lemma PadToken(t: string)
    requires WellFormedToken(t)
    ensures Split(Pad(t)) == [t]
  {
    if t == "(" || t == ")" {
      PadChar(t[0]);
      assert [t[0]] == t;
      assert Pad(t) == [' '] + t + [' '];
      SplitAtSpace([], ' ', t + [' ']);
      assert [] + [' '] + (t + [' ']) == Pad(t);
      SplitAtSpace(t, ' ', []);
      assert t + [' '] + [] == t + [' '];
      SplitWord(t);
    } else {
      PadParenFree(t);
      SplitWord(t);
    }
  }

  /** Joining well-formed tokens with spaces and tokenizing again gives them back. */
  lemma {:induction false} TokenizeJoin(ts: seq<string>)
    requires WellFormedTokens(ts)
    ensures Tokenize(Join(ts)) == ts
    decreases |ts|
  {
    if ts == [] {
    } else if |ts| == 1 {
      PadToken(ts[0]);
    } else {
      var j := Join(ts[1..]);
      TokenizeJoin(ts[1..]);
      PadConcat(ts[0] + " ", j);
      PadConcat(ts[0], " ");
      PadChar(' ');
      SplitAtSpace(Pad(ts[0]), ' ', Pad(j));
      PadToken(ts[0]);
      assert Pad(Join(ts)) == Pad(ts[0]) + [' '] + Pad(j);
    }
  }

  /** `tokenize(' '.join(tokenize(s))) == tokenize(s)` */
  lemma TokenizeIdempotent(s: string)
    ensures Tokenize(Join(Tokenize(s))) == Tokenize(s)
  {
    TokensWellFormed(s);
    TokenizeJoin(Tokenize(s));
  }
}
