/**
 * The token types of core/types.py: numbers, symbols and subtrees, the
 * classifier `Token(token)`, and the reserved-word table. The values that
 * evaluation produces are declared here too, since the table binds
 * reserved words to them.
 */
module Types {
  import opened Basics
  import Parser

  /** Token.Number, Token.Symbol and Token.Subtree: a Python int, str or list. */
  datatype Expr = Num(n: int) | Sym(name: string) | List(items: seq<Expr>)

  /** The callables of the reserved-word table, one per lambda. */
  datatype Op =
    | FunOp | IfOp | DefineOp
    | Plus | Times | Equal | And | Or
    | Minus | Divide | Mod | Greater | Less
    | Not | PrintNum | PrintBool

  /** Every Python object evaluation can produce. An expression is itself a
      value (`Data`), since inline applications bind arguments unevaluated. */
  datatype Value =
    | Data(e: Expr)                                  // an int, str or list
    | Bool(b: bool)                                  // True, False
    | Infinity                                       // float("inf")
    | Nothing                                        // None
    | Ellipsis                                       // ..., returned by the `fun`/`define` lambdas
    | Closure(params: Expr, body: Expr, frame: nat)  // a Procedure and its captured frame
    | Builtin(op: Op)                                // one of the reserved-word lambdas

  /** The exceptions evaluation can raise. Only UndefinedSymbol is the
      interpreter's own; the others are what Python raises on its behalf. */
  datatype Error =
    | UndefinedSymbol                // Env.find exhausted the chain
    | Malformed                      // ValueError: a form unpacked into the wrong number of parts
    | EmptyForm                      // IndexError: `()` has no operator
    | Unhashable                     // TypeError: a list used as a dictionary key
    | NotIterable                    // TypeError: zip over something that is not iterable
    | NotCallable                    // TypeError: calling a number, a boolean, None, ...
    | WrongArgCount                  // TypeError: a lambda or Procedure given the wrong number of arguments
    | ZeroDivision                   // ZeroDivisionError from `mod`
    | BadOperand                     // TypeError/NameError/SyntaxError of a primitive on operands outside the integers
    | OutOfFuel                      // not a Python error: the evaluation did not finish within the given fuel

  function Int(i: int): Value
  {
    Data(Num(i))
  }

  /** Token.reserved_words(): special-form markers, primitives and constants. */
  const ReservedWords: map<string, Value> := map[
    "fun" := Builtin(FunOp), "if" := Builtin(IfOp), "define" := Builtin(DefineOp),
    "+" := Builtin(Plus), "*" := Builtin(Times), "=" := Builtin(Equal),
    "and" := Builtin(And), "or" := Builtin(Or),
    "-" := Builtin(Minus), "/" := Builtin(Divide), "mod" := Builtin(Mod),
    ">" := Builtin(Greater), "<" := Builtin(Less),
    "not" := Builtin(Not), "print-num" := Builtin(PrintNum), "print-bool" := Builtin(PrintBool),
    "#t" := Bool(true), "#f" := Bool(false)
  ]

  // ---------------------------------------------------------------------
  // Integer literals: what `int(token)` accepts, and how `str(n)` renders

  predicate IsDigit(c: char)
  {
    '0' <= c <= '9'
  }

  predicate IsLetter(c: char)
  {
    'a' <= c <= 'z' || 'A' <= c <= 'Z'
  }

  predicate AllDigits(s: string)
  {
    forall i :: 0 <= i < |s| ==> IsDigit(s[i])
  }

  function DigitValue(c: char): nat
    requires IsDigit(c)
  {
    c as int - '0' as int
  }

  function Digit(d: nat): (c: char)
    requires d < 10
    ensures IsDigit(c) && DigitValue(c) == d
  {
    ('0' as int + d) as char
  }

  /** The number a string of decimal digits denotes. */
  function DigitsValue(s: string): nat
    requires AllDigits(s)
    decreases |s|
  {
    if s == [] then 0 else 10 * DigitsValue(s[..|s| - 1]) + DigitValue(s[|s| - 1])
  }

  /** `int(token)`: an optional sign followed by one or more decimal digits. */
  function ParseInt(t: string): Option<int>
  {
    if |t| >= 2 && (t[0] == '-' || t[0] == '+') && AllDigits(t[1..]) then
      var magnitude: int := DigitsValue(t[1..]);
      Some(if t[0] == '-' then -magnitude else magnitude)
    else if |t| >= 1 && AllDigits(t) then Some(DigitsValue(t))
    else None
  }

  /** The decimal digits of `n`, most significant first, without leading zeros. */
  function ShowNat(n: nat): (s: string)
    ensures |s| >= 1 && AllDigits(s)
  {
    if n < 10 then [Digit(n)] else ShowNat(n / 10) + [Digit(n % 10)]
  }

  /** `str(i)` for a Python int. */
  function ShowInt(i: int): string
  {
    if i < 0 then "-" + ShowNat(-i) else ShowNat(i)
  }

  lemma {:induction false} DigitsOfShowNat(n: nat)
    ensures DigitsValue(ShowNat(n)) == n
  {
    var s := ShowNat(n);
    if n >= 10 {
      DigitsOfShowNat(n / 10);
      assert s[..|s| - 1] == ShowNat(n / 10);
    }
  }

  /** Printing an integer and reading it back gives the same integer. */
  lemma ParseShowInt(i: int)
    ensures ParseInt(ShowInt(i)) == Some(i)
  {
    var t := ShowInt(i);
    if i < 0 {
      var digits := ShowNat(-i);
      DigitsOfShowNat(-i);
      assert t == "-" + digits;
      assert t[0] == '-' && t[1..] == digits;
      assert |t| >= 2 && AllDigits(t[1..]);
    } else {
      DigitsOfShowNat(i);
      assert IsDigit(t[0]);
      assert t[0] != '-' && t[0] != '+';
    }
  }

  // ---------------------------------------------------------------------
  // Symbols and the classifier

  predicate SymbolChar(c: char)
  {
    IsLetter(c) || IsDigit(c) || c == '-'
  }

  /** The whole of `t` is `[a-zA-Z][a-zA-Z0-9\-]*`. */
  predicate PatternBody(t: string)
  {
    |t| >= 1 && IsLetter(t[0]) && forall i :: 1 <= i < |t| ==> SymbolChar(t[i])
  }

  /** `re.match(r'^[a-zA-Z][a-zA-Z0-9\-]*$', t) is not None`. Python's `$`
      also matches just before a newline that ends the string. */
  predicate MatchesSymbolPattern(t: string)
  {
    PatternBody(t) || (|t| >= 2 && t[|t| - 1] == '\n' && PatternBody(t[..|t| - 1]))
  }

  /** `Token._is_valid_symbol(token, reserved_words)` */
  predicate IsValidSymbol(t: string)
  {
    t in ReservedWords || MatchesSymbolPattern(t)
  }

  /** The `TypeError` raised for a token that is neither an integer nor a
      valid symbol; its message names the token. */
  datatype TokenError = InvalidToken(token: string)
  {
    /** The message is the fixed prefix followed by the token's text, so the
        token can be read back from it. */
    function Message(): (m: string)
      ensures |m| == 15 + |token|
      ensures m[..15] == "Invalid token: " && m[15..] == token
    {
      "Invalid token: " + token
    }
  }

  /** `Token(token)`: an integer if `int` accepts it, else a symbol if it is
      valid, else an error naming the token. */
  function Classify(t: string): (r: Result<Expr, TokenError>)
    ensures r.Ok? ==> !r.value.List?
    ensures r.Ok? && r.value.Sym? ==> r.value.name == t
    ensures r.Fail? ==> r.error == InvalidToken(t) && !IsValidSymbol(t)
    ensures ParseInt(t).Some? ==> r == Ok(Num(ParseInt(t).value))
    ensures r.Ok? && r.value.Num? ==> ParseInt(t) == Some(r.value.n)
  {
    match ParseInt(t)
    case Some(n) => Ok(Num(n))
    case None => if IsValidSymbol(t) then Ok(Sym(t)) else Fail(InvalidToken(t))
  }

  /** No reserved word reads as an integer. */
  lemma ReservedNotNumeric(w: string)
    requires w in ReservedWords
    ensures ParseInt(w) == None
  {
    assert w in {"fun", "if", "define", "+", "*", "=", "and", "or", "-", "/", "mod",
                 ">", "<", "not", "print-num", "print-bool", "#t", "#f"};
    if w == "+" || w == "-" {
      assert |w| == 1 && !IsDigit(w[0]);
    } else {
      assert !IsDigit(w[0]);
    }
  }

  /** A token is never both an integer literal and a valid symbol, so the
      order of the two checks in `Token.__new__` decides nothing. */
  lemma NumberNotSymbol(t: string)
    requires ParseInt(t).Some?
    ensures !IsValidSymbol(t)
  {
    if t in ReservedWords {
      ReservedNotNumeric(t);
    }
    assert !IsLetter(t[0]);
  }

  /** Every reserved word is classified as the symbol it spells. */
  lemma ReservedClassify(w: string)
    requires w in ReservedWords
    ensures Classify(w) == Ok(Sym(w))
  {
    ReservedNotNumeric(w);
  }

  /** Nine reserved words do not fit the symbol pattern; they are symbols
      only because `_is_valid_symbol` checks the table first. */
  lemma ReservedOutsidePattern(w: string)
    requires w in {"+", "*", "=", "-", "/", ">", "<", "#t", "#f"}
    ensures w in ReservedWords && !MatchesSymbolPattern(w)
  {
    assert !IsLetter(w[0]);
    if |w| >= 2 {
      assert w[|w| - 1] != '\n';
    }
  }

  /** A token that is neither a number nor reserved is a symbol exactly when
      it fits the pattern, and then it is kept unchanged. */
  lemma ClassifyIdentifier(t: string)
    requires t !in ReservedWords && ParseInt(t).None?
    ensures Classify(t) == (if MatchesSymbolPattern(t) then Ok(Sym(t)) else Fail(InvalidToken(t)))
  {
  }

  /** The printed form of an integer is classified as that integer again. */
  lemma ClassifyShowInt(i: int)
    ensures Classify(ShowInt(i)) == Ok(Num(i))
  {
    ParseShowInt(i);
  }

  /** Tokens that `int` accepts although `str` never prints them: leading
      zeros, an explicit plus sign and a negative zero. */
  lemma ClassifyNonCanonical()
    ensures Classify("007") == Ok(Num(7))
    ensures Classify("+5") == Ok(Num(5))
    ensures Classify("-0") == Ok(Num(0))
  {
    assert DigitsValue("007") == 7 by {
      assert "007"[..2] == "00";
      assert "00"[..1] == "0";
      assert "0"[..0] == "";
    }
    assert "+5"[1..] == "5" && "5"[..0] == "";
    assert "-0"[1..] == "0";
  }

  /** For the tokens `tokenize` produces, which contain no whitespace,
      the trailing-newline case of the pattern never applies. */
  lemma TokenPatternStrict(t: string)
    requires Parser.NoSpace(t)
    ensures MatchesSymbolPattern(t) <==> PatternBody(t)
  {
    if |t| >= 2 {
      assert !Parser.IsSpace(t[|t| - 1]);
    }
  }

  /** The examples of the Token docstring and `int`'s sign handling. */
  lemma ClassifyExamples()
    ensures Classify("123") == Ok(Num(123))
    ensures Classify("-5") == Ok(Num(-5))
    ensures Classify("abc") == Ok(Sym("abc"))
    ensures Classify("12a") == Fail(InvalidToken("12a"))
    ensures InvalidToken("12a").Message() == "Invalid token: 12a"
  {
    NumberExamples();
    WordExamples();
  }

  /** The integer cases of the Token docstring. */
  lemma NumberExamples()
    ensures Classify("123") == Ok(Num(123))
    ensures Classify("-5") == Ok(Num(-5))
  {
    assert DigitsValue("123") == 123 by {
      assert "123"[..2] == "12";
      assert "12"[..1] == "1";
      assert "1"[..0] == "";
    }
    assert "-5"[1..] == "5";
    assert DigitsValue("5") == 5 by {
      assert "5"[..0] == "";
    }
  }

  /** The symbol and the invalid-token cases of the Token docstring. */
  lemma WordExamples()
    ensures Classify("abc") == Ok(Sym("abc"))
    ensures Classify("12a") == Fail(InvalidToken("12a"))
  {
    assert !IsDigit("abc"[0]);
    assert !IsDigit("12a"[2]);
    assert !AllDigits("12a"[1..]) by {
      assert !IsDigit("12a"[1..][1]);
    }
    assert !IsLetter("12a"[0]);
    assert "12a" !in ReservedWords;
    assert "abc" !in ReservedWords;
  }
}
