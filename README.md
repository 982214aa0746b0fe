# mini-Lisp interpreter core, modelled and verified in Dafny

This project models the four core files of the mini-Lisp interpreter:

- the tokenizer `tokenize` (core/parser.py);
- the token classifier `Token(...)` and the reserved-word table of primitives (core/types.py);
- the chained scope environments `Env`, with `find` and `standard_env` (core/environment.py);
- the evaluator `eval`, user procedures (`Procedure`) and `eval_all` (core/evaluator.py).

Everything verifies with Dafny 4.11.

Layout, leaves first:

- `basics.dfy` (`Basics`): `Option`, `Result`, `Min`.
- `parser.dfy` (`Parser`): `Tokenize` written as the source writes it — replace `(`, replace `)`, split on whitespace. The lemmas state what the token list is.
- `types.dfy` (`Types`):
  - the expression forms `Expr` (Python int / str / list);
  - every value evaluation can produce, as `Value`;
  - the exceptions, as `Error`;
  - the reserved-word table `ReservedWords`;
  - integer literals `ParseInt`/`ShowInt`, which are `int(...)` and `str(...)`;
  - the classifier `Classify`.
- `primitives.dfy` (`Primitives`): what each lambda of the reserved-word table computes, stated by meaning. Printing is modelled as lines appended to an output sequence.
- `environment.dfy` (`Environment`): the Python heap of `Env` objects, modelled as an arena.
  - The arena is a `seq<Frame>`. Each frame's `outer` index is smaller than its own index, so chains are acyclic.
  - `Find` walks the `outer` chain.
  - The class `Arena` holds the arena as a field. Its methods create frames (`Env(...)`, `standard_env()`) and update them in place (`env[k] = v`, `env.update(zip(...))`).
- `evaluator.dfy` (`Evaluator`): `eval` as mutually recursive functions over a `State` (frames and printed lines). A fuel bound stands in for non-termination: `OutOfFuel` is the "did not finish" result.
- `runtime.dfy` (`Runtime`): the state-changing parts of the evaluator, as methods on an `Arena`. Each is proved to end in exactly the state the evaluator functions describe:
  - `Procedure.__init__` (`NewProcedure`) and `Procedure.__call__` (`CallProcedure`);
  - `define` (`Define`);
  - the in-place `eval_all` loop (`EvalAll`).
- `evaluator_facts.dfy` (`EvaluatorFacts`): lemmas about evaluation, together with the pytest cases of the repository.
- `fuel.dfy` (`Fuel`): more fuel never changes a finished evaluation.

Where the code and its documentation or tests disagree, the model follows the code:

- `Env.find` raises `UndefinedSymbol` when the chain has no binding; its docstring says the call returns None (`Environment.Lookup`, `EvaluatorFacts.EvalAtom`).
- `/` by zero returns `float("inf")` rather than raising (`Primitives.DivideMeaning`).
- No primitive checks its arity or its operand types beyond what Python itself rejects.
- A list headed by a non-reserved symbol yields None: `(f 3)` does not call `f`. So do lists headed by a number, `#t` or `#f` (`EvaluatorFacts.FallThrough`).
- The pytest cases `[1] -> 1` and `["#t"] -> True` in tests/evaluator/eval_test.py:13-14 disagree with the code, which yields None for both. `EvaluatorFacts.EvalTestCases` proves the None.
- `_is_valid_symbol` uses `re.match` with `$`. In Python, `$` also matches before a final newline, and `IsValidSymbol` keeps that. No token from `Tokenize` contains a newline, so on tokens the pattern is the plain one (`Types.TokenPatternStrict`).

## Model

| member | source | states |
|---|---|---|
| Parser.Tokenize | core/parser.py:3-5 | definition of `tokenize`: the padded string split on whitespace; its properties are the `Parser` lemmas below |
| Parser.Pad | core/parser.py:5 | definition of the two `replace` calls: each `(` and `)` surrounded by spaces |
| Parser.Split | core/parser.py:5 | definition of `str.split()` with no separator: maximal runs of non-whitespace, in order |
| Parser.TokensWellFormed | core/parser.py:3-5 | every token is non-empty and has no whitespace; it is either a lone `(` / `)` or contains no parenthesis |
| Parser.TokensConcat | core/parser.py:5 | the tokens concatenated give the input with all whitespace removed, in the original order |
| Parser.ParenCount | core/parser.py:5 | the number of `(` tokens equals the number of `(` characters in the input; likewise for `)` |
| Parser.TokenizeJoin | core/parser.py:3-5 | any list of well-formed tokens, joined with spaces, tokenizes back to itself |
| Parser.TokenizeIdempotent | core/parser.py:3-5 | `tokenize(" ".join(tokenize(s))) == tokenize(s)` for every string |
| Parser.PadToken | core/parser.py:5 | padding parentheses and splitting leaves a single well-formed token unchanged |
| Parser.SplitPadded | core/parser.py:5 | splitting padded text after a parenthesis-free word gives only well-formed tokens |
| Parser.WordLength | core/parser.py:5 | the length of the leading run of non-whitespace, which ends at whitespace or at the end |
| Parser.SplitAtSpace | core/parser.py:5 | `split()` at a whitespace character is the split of each side, concatenated |
| Parser.ConcatSplit | core/parser.py:5 | concatenating the pieces of `split()` removes exactly the whitespace |
| Parser.RemoveSpacesPad | core/parser.py:5 | padding with spaces is invisible once whitespace is removed |
| Parser.ConcatCount | core/parser.py:5 | for well-formed tokens, the count of a parenthesis character in their concatenation equals the count of that one-character token |
| Types.ReservedWords | core/types.py:71-98 | definition of the reserved-word table: the eighteen words, each bound to its primitive or, for `#t`/`#f`, to its boolean |
| Types.ParseInt | core/types.py:61 | definition of `int(token)` on a token: an optional sign and one or more decimal digits (leading zeros allowed); see `Types.ParseShowInt`, `Types.ClassifyNonCanonical` |
| Types.ShowInt | core/types.py:80-82 | definition of `str(i)` for an int: a minus sign for negatives, then the digits without leading zeros; see `Types.ParseShowInt` |
| Types.MatchesSymbolPattern | core/types.py:108-109 | definition of `re.match(r'^[a-zA-Z][a-zA-Z0-9\-]*$', token)`, including the match before a final newline that `$` allows; see `Types.TokenPatternStrict` |
| Types.IsValidSymbol | core/types.py:100-109 | definition of `_is_valid_symbol`: a reserved word, or a match of the pattern; see `Types.ReservedOutsidePattern`, `Types.ClassifyIdentifier` |
| Types.TokenError.Message | core/types.py:69 | the message of the classifier's `TypeError` is the 15-character prefix `Invalid token: ` followed by exactly the token's text, so the token can be read back from it |
| Types.Classify | core/types.py:59-69 | a token that `int()` accepts becomes `Number` of that integer, and every `Number` result is what `int()` gives; otherwise the token becomes a symbol keeping its text (never a list); failure carries `InvalidToken(token)` and happens only when the token is not a valid symbol |
| Types.ReservedNotNumeric | core/types.py:71-98 | no reserved word is accepted by `int()`, so the integer check can never capture one |
| Types.NumberNotSymbol | core/types.py:59-63 | a token that `int()` accepts does not satisfy the symbol test, so integers come first and only once |
| Types.ReservedClassify | core/types.py:100-106 | every reserved word is classified as the symbol of itself |
| Types.ReservedOutsidePattern | core/types.py:105-109 | `+ * = - / > < #t #f` are valid only because they are reserved: they do not match the symbol pattern |
| Types.ClassifyIdentifier | core/types.py:100-109 | a non-numeric, non-reserved token is a symbol iff it matches `[a-zA-Z][a-zA-Z0-9-]*`, and `InvalidToken` otherwise |
| Types.TokenPatternStrict | core/types.py:108-109 | on a token without whitespace, the regular expression holds exactly when the token is a letter followed by letters, digits and `-` |
| Types.ClassifyShowInt | core/types.py:59-63 | the decimal form of any integer classifies as that integer |
| Types.ClassifyNonCanonical | core/types.py:60-61 | tokens that `int()` accepts but `str` never prints are numbers too: `007` is 7, `+5` is 5, `-0` is 0 |
| Types.ParseShowInt | core/types.py:61 | `int(str(i)) == i` for every integer |
| Types.DigitsOfShowNat | core/types.py:80-82 | the digits `str(n)` prints have the value `n` |
| Types.ShowNat | core/types.py:80-82 | `str(n)` of a natural is a non-empty run of decimal digits |
| Types.Digit | core/types.py:80-82 | the digit character of `d` is a digit whose value is `d` |
| Types.ClassifyExamples | core/types.py:22-52 | `'123'` gives 123 and `'abc'` gives `"abc"`; `'12a'` fails with message `Invalid token: 12a` |
| Types.NumberExamples | core/types.py:22-52 | the docstring's integer cases `'123'` and `'-5'` |
| Types.WordExamples | core/types.py:22-52 | the docstring's `'abc'` symbol and `'12a'` invalid-token cases |
| Primitives.Truthy | core/types.py:77 | definition of Python truthiness, used by `if`, `and`, `or`, `not` and `print-bool`: a non-zero int, a non-empty str or list, `True`, `inf`, `Ellipsis`, a procedure or a lambda, while None is false; see `Primitives.AllTruthyForall`, `Primitives.AnyTruthyExists` |
| Primitives.Sum | core/types.py:80 | definition of what `eval` of `a+b+...` computes on ints and bools; see `Primitives.SumAppend` |
| Primitives.Product | core/types.py:81 | definition of what `eval` of `a*b*...` computes on ints and bools; see `Primitives.ProductAppend` |
| Primitives.ChainEqual | core/types.py:82 | definition of the chained comparison `a==b==...`; see `Primitives.ChainEqualAll` |
| Primitives.AllTruthy | core/types.py:83 | definition of `all`; see `Primitives.AllTruthyForall` |
| Primitives.AnyTruthy | core/types.py:84 | definition of `any`; see `Primitives.AnyTruthyExists` |
| Primitives.JoinedEval | core/types.py:80-82 | definition of `eval(sep.join(map(str, x)))` for `+ * =`: no operand fails, one operand whose `str` reads back is returned as it is, several ints or bools are folded; see `Primitives.PlusFolds`, `Primitives.TimesFolds`, `Primitives.ChainEqualAll` |
| Primitives.TruncDiv | core/types.py:87 | definition of `int(x / y)` on ints: the quotient truncated toward zero; see `Primitives.TruncDivRemainder` |
| Primitives.FloorMod | core/types.py:88 | definition of Python's `x % y` on ints; see `Primitives.FloorModRange` |
| Primitives.Show | core/types.py:93 | definition of `str(v)`, the line `print` writes; see `Primitives.PrintMeaning` |
| Primitives.PrintedLine | core/types.py:93-94 | definition of the line `print-num` or `print-bool` appends; see `Primitives.PrintMeaning` |
| Primitives.ApplyPrim | core/types.py:74-98 | only `print-num`/`print-bool` of one argument print, and each prints one line; no primitive returns a procedure it was not given |
| Primitives.Binary | core/types.py:86-90 | the two-parameter primitives never return a procedure |
| Primitives.PlusFolds | core/types.py:80 | `+` over two or more integer/boolean operands is their sum, splitting at any point, and prints nothing |
| Primitives.SumAppend | core/types.py:80 | the fold of `+` over a concatenation is the sum of the two folds |
| Primitives.ProductAppend | core/types.py:81 | the fold of `*` over a concatenation is the product of the two folds |
| Primitives.TimesFolds | core/types.py:81 | `*` over two or more integer/boolean operands is their product, splitting at any point, and prints nothing |
| Primitives.ChainEqualAll | core/types.py:82 | `=` over numeric operands is true iff every operand equals the first |
| Primitives.AllTruthyForall | core/types.py:83 | `and` is true iff every operand is truthy |
| Primitives.AnyTruthyExists | core/types.py:84 | `or` is true iff some operand is truthy |
| Primitives.TruncDivRemainder | core/types.py:87 | `int(x / y)` leaves a remainder smaller than the divisor in magnitude, with the sign of the dividend (truncation toward zero) |
| Primitives.DivideMeaning | core/types.py:87 | `/` by zero yields the infinity value; a number divided by that infinity yields 0; otherwise it yields the integer quotient truncated toward zero |
| Primitives.FloorModRange | core/types.py:88 | Python's `%` lies between 0 and the divisor, has the divisor's sign, and differs from the dividend by a multiple of the divisor (floored quotient) |
| Primitives.ModMeaning | core/types.py:88 | `mod` by zero raises ZeroDivisionError; otherwise it yields the floored remainder with the divisor's sign |
| Primitives.PrintMeaning | core/types.py:93-94 | `print-num` appends the decimal form of its integer, which reads back as that integer; `print-bool` appends `#t` or `#f` by truthiness; both yield None |
| Primitives.StandardPrimitiveCases | tests/environment/Env_test.py:29-58 | each parametrised case of `test_standard_env` gives the expected result |
| Primitives.FoldCases | tests/environment/Env_test.py:32-34 | `+ - *` cases of the standard-environment test |
| Primitives.DivideCases | tests/environment/Env_test.py:35-36 | `/` cases of the standard-environment test (6/2 = 3, 8/3 = 2), -7/2 = -3 because the quotient is truncated toward zero, and 5 divided by the infinity of `(/ 1 0)` is 0 |
| Primitives.ModCases | tests/environment/Env_test.py:37-39 | `mod` cases: 7 mod 3 = 1, 10 mod 2 = 0, -5 mod 2 = 1 |
| Primitives.ComparisonCases | tests/environment/Env_test.py:40-47 | `> < =` cases of the standard-environment test |
| Primitives.LogicCases | tests/environment/Env_test.py:48-52 | `and or not` cases of the standard-environment test |
| Environment.ZipUpdate | core/environment.py:27 | definition of `dict.update(zip(ks, vs))`: pairs stored left to right, stopping at the shorter input, a list key unhashable; see `Environment.ZipUpdateBinds` |
| Environment.NewFrame | core/environment.py:21-28 | definition of `Env(params, args, outer)`: the zipped pairs over an empty dictionary, and the outer link; see `Environment.Arena.NewEnv` |
| Environment.StandardBindings | core/environment.py:47-53 | definition of the dictionary of `standard_env()`; see `Environment.StandardEnvExact` |
| Environment.Find | core/environment.py:30-45 | the frame found is on the way out from `i` and binds the key |
| Environment.Lookup | core/environment.py:42-45 | `env.find(var)[var]`: failure is UndefinedSymbol; any value found refers only to existing frames |
| Environment.Chain | core/environment.py:43-44 | the `outer` chain from a frame starts there, follows each `outer` link, and ends at a frame without `outer` |
| Environment.FindNone | core/environment.py:42-45 | `find` fails iff no frame on the chain binds the key |
| Environment.FindInnermost | core/environment.py:30-44 | the frame `find` returns is the first one on the chain that binds the key: no frame before it does |
| Environment.FindLocal | core/environment.py:42 | a key bound in the frame itself is found there, so an inner binding shadows every outer one |
| Environment.UnboundOnCons | core/environment.py:42-44 | a chain is unbound iff its first frame lacks the key and the rest of the chain is unbound |
| Environment.FindExtend | core/environment.py:30-45 | creating a new frame changes no existing frame's lookups |
| Environment.ZipUpdateBinds | core/environment.py:27 | `update(zip(params, args))` binds exactly the zipped pairs, truncated to the shorter input, with a later duplicate winning; it keeps all other keys; a list key makes it fail as unhashable |
| Environment.ZipUpdateValues | core/environment.py:27 | every value stored by the update is an argument or was already there |
| Environment.ZipUpdateOk | core/environment.py:27 | the update fails exactly when one of the zipped keys is a list, and then as unhashable |
| Environment.ZipUpdateKeys | core/environment.py:27 | a successful update adds exactly the zipped keys, truncated to the shorter input |
| Environment.ZipUpdateLatest | core/environment.py:27 | each zipped key holds the value of its last pair |
| Environment.ZipUpdateLatestAt | core/environment.py:27 | the pair at a position decides its key when no later pair repeats the key |
| Environment.ZipUpdateKeeps | core/environment.py:27 | keys that are not zipped keep their values |
| Environment.StandardEnvExact | core/environment.py:47-53 | the standard bindings bind exactly the reserved words, each to its table entry, and none of them to a procedure |
| Environment.StandardKeys | core/environment.py:49-52 | the keys of `standard_env()` are exactly the reserved words |
| Environment.StandardValues | core/environment.py:49-52 | each reserved word is bound to its table entry |
| Environment.ReservedNoClosure | core/types.py:74-98 | no entry of the reserved-word table is a procedure |
| Environment.SetBindings | core/evaluator.py:33 | replacing one frame's dictionary changes no other frame and no `outer` link |
| Environment.Assign | core/evaluator.py:74 | `env[key] = v` binds `key` to `v`, keeps every other key of that frame, and changes no other frame and no `outer` link |
| Environment.AssignWellFormed | core/evaluator.py:74 | assigning in place keeps the arena well formed |
| Environment.SetBindingsWellFormed | core/evaluator.py:33 | replacing a frame's dictionary by one with valid values keeps the arena well formed |
| Environment.AppendFrame | core/environment.py:21-28 | a new frame whose `outer` and values refer to existing frames keeps the arena well formed |
| Environment.EnvTestCases | tests/environment/Env_test.py:7-27 | `Env()` is empty; `Env(params, args, e)` holds exactly a..d → 1..4; `Env(outer=...)` is empty; `find('a')` from it returns the outer frame |
| Environment.Arena.NewEnv | core/environment.py:21-28 | `Env(params, args, outer)` appends one frame holding the zipped pairs (or fails as unhashable, adding nothing) and returns its index |
| Environment.Arena.StandardEnv | core/environment.py:47-53 | appends a frame with no `outer` holding exactly the standard bindings |
| Environment.Arena.Bind | core/evaluator.py:74 | the arena after `env[key] = v` is `Assign` of the arena before |
| Environment.Arena.Update | core/evaluator.py:33 | the arena after `env.update(zip(keys, vals))` has that frame's dictionary replaced by the zipped update (unchanged on failure) |
| Evaluator.Eval | core/evaluator.py:37-99 | evaluation keeps the arena well formed; it only adds frames, never changes an `outer` link, and only appends output; values refer to existing frames |
| Evaluator.EvalInline | core/evaluator.py:61-63 | the head is evaluated and called with the unevaluated rest of the list; the state only grows |
| Evaluator.EvalIf | core/evaluator.py:68-70 | as for `Eval`, for the `if` form (four parts, else Malformed) |
| Evaluator.EvalDefine | core/evaluator.py:72-74 | as for `Eval`, for the `define` form (three parts, else Malformed) |
| Evaluator.EvalFun | core/evaluator.py:76-79 | as for `Eval`, for the `fun` form (three parts, else Malformed) |
| Evaluator.EvalUnary | core/evaluator.py:82-88 | as for `Eval`, for `not`, `print-num` and `print-bool` (two parts, else Malformed) |
| Evaluator.EvalBinary | core/evaluator.py:91-93 | as for `Eval`, for `- / mod > <` (three parts, else Malformed) |
| Evaluator.EvalVariadic | core/evaluator.py:96-99 | as for `Eval`, for `+ * = and or` |
| Evaluator.EvalSeq | core/evaluator.py:101-103 | evaluating a list of expressions left to right gives one value per expression, and the state only grows |
| Evaluator.Invoke | core/evaluator.py:29-34 | calling a procedure or a primitive keeps the arena well formed, and the state only grows |
| Evaluator.Call | core/evaluator.py:29-34 | `proc(args)` keeps the arena well formed, and the state only grows; what a call does is stated by `EvaluatorFacts.CallStops`, `CallRunsBody` and `CallFrames` |
| Evaluator.Items | core/evaluator.py:33 | what `zip` iterates: a list gives its items and a string its one-character strings; an int is not iterable |
| Evaluator.ValueItems | core/evaluator.py:33 | an argument object is iterable exactly when it is a list or string, and then gives one item per element |
| Evaluator.GrowsTrans | core/evaluator.py:37-99 | growth of the state composes over successive evaluation steps |
| Runtime.NewProcedure | core/evaluator.py:22-27 | `Procedure(params, body, env)` allocates exactly one new empty frame enclosed by `env`, and agrees with the `fun` form |
| Runtime.Define | core/evaluator.py:72-74 | the in-place `env[var_name] = eval(var_value, env)` ends in the outcome and arena the `define` form describes |
| Runtime.CallProcedure | core/evaluator.py:29-34 | the in-place `self.env.update(zip(...))` followed by `eval(body)` ends in the outcome and arena `Call` describes |
| Runtime.Exprs | core/evaluator.py:101-103 | recovers the expressions of a list of unevaluated elements, one per element |
| Runtime.EvalSeqAppend | core/evaluator.py:101-103 | evaluating `a + b` is evaluating `a`, then `b` from where `a` left off; the first error stops it |
| Runtime.EvalSeqAppendStep | core/evaluator.py:101-103 | one element of that split: the statement for `a` follows from the one for the rest of `a`, started where the first element left off |
| Runtime.EvalSeqSnoc | core/evaluator.py:102-103 | one more loop step appends the value of the next element |
| Runtime.EvalSeqStops | core/evaluator.py:102-103 | once a prefix fails, the whole list fails in the same way |
| Runtime.EvalAll | core/evaluator.py:101-103 | the loop replaces every element with its value, left to right and in place, keeping the length; it ends in the arena and output of sequential evaluation, stopping at the first error |
| EvaluatorFacts.StandardState | core/environment.py:47-53 | the state of a fresh interpreter: one root frame with the standard bindings and no output |
| EvaluatorFacts.StandardStateGood | core/environment.py:47-53 | that state is well formed |
| EvaluatorFacts.StandardEntry | core/environment.py:50-52 | every reserved word is bound in the standard frame to its table entry |
| EvaluatorFacts.StandardLookup | core/environment.py:47-53 | from a standard root frame, every reserved word looks up to its table entry |
| EvaluatorFacts.EvalAtom | core/evaluator.py:42-53 | a number evaluates to itself, with the state unchanged. A symbol evaluates to its value in the innermost frame of the chain that binds it, and fails with UndefinedSymbol iff no frame of the chain binds it. |
| EvaluatorFacts.IfLazy | core/evaluator.py:68-70 | `if` evaluates the condition, then exactly the branch that its truthiness selects, from the state the condition left; replacing the other branch changes nothing |
| EvaluatorFacts.DefineBindsHere | core/evaluator.py:72-74 | `define` succeeds iff the value evaluates and the name is hashable. It yields None and binds the name in the current frame only; no other frame and no output change; the name then looks up to the value. |
| EvaluatorFacts.FunFresh | core/evaluator.py:76-79 | `fun` adds exactly one empty frame enclosed by the current one and returns a procedure over it; lookups from that frame agree with lookups from the defining frame |
| EvaluatorFacts.FallThrough | core/evaluator.py:56-65 | a list headed by neither a list nor a reserved word, or headed by `#t`/`#f`, yields None and changes nothing |
| EvaluatorFacts.InlineUnevaluated | core/evaluator.py:61-63 | `((fun (p) p) a)` returns the expression `a` itself, unevaluated |
| EvaluatorFacts.VariadicDispatch | core/evaluator.py:96-99 | a list headed by `+ * = and or` is evaluated by the variadic form |
| EvaluatorFacts.UnaryDispatch | core/evaluator.py:82-88 | a list headed by `not`, `print-num` or `print-bool` is evaluated by the one-operand form |
| EvaluatorFacts.BinaryDispatch | core/evaluator.py:91-93 | a list headed by `- / mod > <` is evaluated by the two-operand form |
| EvaluatorFacts.BinaryForm | core/evaluator.py:91-93 | `(w x y)` applies the innermost binding of `w` to the values of `x` and `y`, in that order |
| EvaluatorFacts.BinaryOfNumerals | core/evaluator.py:91-93 | `(w a b)` over two numerals applies the innermost binding of `w` to the two integers |
| EvaluatorFacts.EvalSeqCons | core/evaluator.py:101-103 | evaluating a non-empty list is evaluating its head and then its tail, stopping at an error |
| EvaluatorFacts.Numerals | core/evaluator.py:101-103 | the numerals of a list of integers, one per integer |
| EvaluatorFacts.Ints | core/evaluator.py:101-103 | the integer values of a list of integers, one per integer |
| EvaluatorFacts.EvalNumerals | core/evaluator.py:101-103 | evaluating numerals gives the integers and changes nothing |
| EvaluatorFacts.SumOfInts | core/types.py:80 | the `+` fold over integer values is the integer sum |
| EvaluatorFacts.PlusOfNumerals | core/evaluator.py:96-99 | `(+ n1 ... nk)` with `k >= 2`, where `+` is bound to the primitive, is the sum, with no change of state |
| EvaluatorFacts.EvalTestCases | tests/evaluator/eval_test.py:7-23 | with the standard frame, `1` → 1, `#t` → True and `(+ 1 2)` → 3; `[1]` and `[#t]` yield None |
| EvaluatorFacts.CallStops | core/evaluator.py:29-34 | a call with no fuel, without exactly one argument list, with parameters or an argument that cannot be iterated, or with a list among the zipped parameters fails before its body and leaves the state as it was |
| EvaluatorFacts.CallRunsBody | core/evaluator.py:29-34 | otherwise, for every procedure and argument, the call is the body evaluated in the procedure's own frame after `update(zip(params, args))`, with no frame added |
| EvaluatorFacts.CallFrames | core/evaluator.py:33 | in the frames the body runs in, each zipped parameter holds the item of its last pair, every other binding of the procedure's frame (those earlier calls stored included) is kept, and all other frames and outer links are unchanged |
| EvaluatorFacts.ProcedureState | tests/evaluator/Procedure_test.py:22-23 | the arena after `standard_env()` and `Procedure(["x"], body, env)` has two frames |
| EvaluatorFacts.ProcedureStateGood | tests/evaluator/Procedure_test.py:22-23 | that arena is well formed |
| EvaluatorFacts.BoundState | core/evaluator.py:33 | the arena after `x` is bound in the procedure frame has two frames |
| EvaluatorFacts.CallOneParam | core/evaluator.py:29-34 | calling a one-parameter procedure with `[n]` binds `x` to `n` in its frame, then evaluates the body there |
| EvaluatorFacts.BoundLookup | core/evaluator.py:29-34 | inside the call, `x` is the argument and other names come from the enclosing frame |
| EvaluatorFacts.PlusOperands | core/evaluator.py:96-99 | the operands `x 1` evaluate to `[5, 1]` in the call's frame |
| EvaluatorFacts.PlusBody | tests/evaluator/Procedure_test.py:11 | the body `(+ x 1)` where `x` is 5 gives 6 |
| EvaluatorFacts.PlusCase | tests/evaluator/Procedure_test.py:11 | `(x) → (+ x 1)` on `[5]` gives 6 |
| EvaluatorFacts.ModCase | tests/evaluator/Procedure_test.py:12 | `(x) → (mod x 2)` on `[8]` gives 0 |
| EvaluatorFacts.ModBody | tests/evaluator/Procedure_test.py:12 | the body `(mod x 2)` where `x` is 8 gives 0 |
| EvaluatorFacts.ProcedureTestCases | tests/evaluator/Procedure_test.py:8-24 | both parametrised cases of `test_1_param` with the standard frame |
| EvaluatorFacts.EmptyPair | core/evaluator.py:27 | a root frame and a procedure frame, both empty |
| EvaluatorFacts.EmptyPairGood | core/evaluator.py:27 | that arena is well formed |
| EvaluatorFacts.ArgItems | core/evaluator.py:33 | an argument list of numerals iterates as those integers |
| EvaluatorFacts.FirstCall | core/evaluator.py:29-34 | `(x y) → y` on `[1, 2]` gives 2 and leaves `x = 1, y = 2` in the procedure's frame |
| EvaluatorFacts.AfterFirst | core/evaluator.py:33 | the arena after that first call |
| EvaluatorFacts.SecondCallSeesFirst | core/evaluator.py:27-33 | a second call with `[3]` still sees `y = 2` from the first call: every call shares the one frame made at creation |
| EvaluatorFacts.FreshCallLacksY | core/evaluator.py:33 | the same call on a fresh procedure fails with UndefinedSymbol |
| EvaluatorFacts.OperatorShadowing | core/evaluator.py:93 | a primitive operator is looked up in the innermost frame: with `-` rebound to `+`, `(- 1 2)` gives 3 there and -1 at the root |
| EvaluatorFacts.ShadowState | core/environment.py:42-44 | a root frame and an inner frame that rebinds `-` to the `+` lambda |
| EvaluatorFacts.ShadowStateGood | core/environment.py:21-28 | that arena is well formed |
| EvaluatorFacts.ShadowInner | core/evaluator.py:91-93 | in the inner frame `(- 1 2)` applies the inner binding and gives 3 |
| EvaluatorFacts.ShadowRoot | core/evaluator.py:91-93 | in the root frame `(- 1 2)` still gives -1 |
| EvaluatorFacts.AndEvaluatesAll | core/evaluator.py:96-99 | `and` does not short-circuit: `(and #f y)` with `y` unbound fails with UndefinedSymbol |
| EvaluatorFacts.PrintNumCase | core/evaluator.py:86-88 | `(print-num n)` yields None and appends the decimal form of `n` |
| EvaluatorFacts.PrintNumForm | core/evaluator.py:86-88 | `(print-num n)`, with `print-num` bound to the primitive, appends the decimal form of `n` and yields None |
| EvaluatorFacts.PrintsInOrder | core/evaluator.py:101-103 | two prints evaluated in sequence output their lines in program order |
| EvaluatorFacts.OperandsInOrder | core/evaluator.py:96-99 | `(+ (print-num 1) (print-num 2))` prints 1 then 2 before `+` fails on the two Nones |
| EvaluatorFacts.NoneSumFails | core/types.py:80 | `+` applied to two None values fails, as `eval("None+None")` raises, and prints nothing |
| EvaluatorFacts.PickFValue | core/evaluator.py:68-70 | `(if #t f f)` evaluates to the procedure bound to `f` |
| EvaluatorFacts.Diverges | core/evaluator.py:61-63 | with `f` bound to `(fun (x) ((if #t f f) x))`, `((if #t f f) a)` runs out of every amount of fuel: it does not terminate |
| EvaluatorFacts.LoopInline | core/evaluator.py:61-63 | `((if #t f f) a)` calls `f` with the unevaluated list `[a]` |
| EvaluatorFacts.LoopStep | core/evaluator.py:29-34 | each call of `f` binds `x` to the argument in `f`'s frame, changing nothing else, and evaluates `((if #t f f) x)` there with one unit less fuel |
| EvaluatorFacts.DivergenceExample | core/evaluator.py:61-79 | in a fresh interpreter, defining that `f` succeeds, and `((if #t f f) 3)` then diverges |
| Fuel.EvalMono | core/evaluator.py:37-99 | once `eval` finishes without running out of fuel, any larger fuel gives the same result and the same final state, so `OutOfFuel` means only "not finished yet" |
| Fuel.InlineMono | core/evaluator.py:61-63 | once an inline call `((fun ...) args...)` finishes without running out of fuel, any larger fuel gives the same result and final state |
| Fuel.IfMono | core/evaluator.py:68-70 | once `if` finishes without running out of fuel, any larger fuel gives the same result and final state |
| Fuel.DefineMono | core/evaluator.py:72-74 | once `define` finishes without running out of fuel, any larger fuel gives the same result and final state |
| Fuel.UnaryMono | core/evaluator.py:82-88 | once a one-operand form finishes without running out of fuel, any larger fuel gives the same result and final state |
| Fuel.BinaryMono | core/evaluator.py:91-93 | once a two-operand form finishes without running out of fuel, any larger fuel gives the same result and final state |
| Fuel.VariadicMono | core/evaluator.py:96-99 | once a form with any number of operands finishes without running out of fuel, any larger fuel gives the same result and final state |
| Fuel.SeqMono | core/evaluator.py:101-103 | once `eval_all` finishes without running out of fuel, any larger fuel gives the same result and final state |
| Fuel.InvokeMono | core/evaluator.py:29-34 | once calling a value finishes without running out of fuel, any larger fuel gives the same result and final state |
| Fuel.CallMono | core/evaluator.py:29-34 | once calling a procedure finishes without running out of fuel, any larger fuel gives the same result and final state |

## Left out

- Input and output beyond printing. The `repl`/`entry_point` loops (core/__init__.py, core/entry_point.py) read stdin and are not modelled. `print` is modelled as appending a line to `State.out`.
- The tree builder. core/__init__.py imports a `parse` that core/parser.py does not define, so there is no parser from tokens to trees to model. Programs enter the model as `Expr` values.
- core/handler.py: its exception classes are never raised by the modelled code, so no arity or type checks are added.
- `InterpreterException.__str__` (core/types.py:121-130) and the exception class hierarchy. Errors are the constructors of `Types.Error`; only the `Invalid token:` message of the classifier is modelled (`TokenError.Message`).
- `DEBUG_MODE` logging and `core.config`, which is not part of this model.
- Primitives.ApplyPrim: `+`, `*` and `=` run Python `eval` on the joined `str` of the operands.
  - The model gives their meaning for two or more integer or boolean operands; booleans count as 0 and 1.
  - With exactly one operand, whose `str` reads back as itself, that operand is returned unchanged.
  - Every other case gives `BadOperand`. For some of these inputs Python raises too: no operands (a syntax error); a procedure or a lambda, whose `str` is not an expression; `inf`, whose `str` is an undefined name; string operands whose joined text does not evaluate; None under `+` or `*`.
  - Python evaluates the rest, and for those the model gives `BadOperand` where Python gives a value:
    - list operands, which `+` concatenates, e.g. `((fun (x) (+ x x)) (1 2))` gives `[1, 2, 1, 2]`;
    - a list with an integer under `*`, e.g. `(* x 2)` with `x` a list gives the list repeated;
    - lists, None or Ellipsis compared by `=`, e.g. `(= (print-num 1) (print-num 2))` gives `True` from `None==None`;
    - string operands whose joined text is a Python expression. Examples: a digit such as `'1'`, a `-` between numbers, or the name of a builtin or of a global of core/types.py. Iterating a symbol yields one-character strings, so after `(define not (fun (a b) (+ b 1)))` the call `((fun (s) (not s)) x1)` binds `b` to `'1'`, and Python gives 2 for `1+1`. Likewise the operands `1`, `'-'`, `2` under `+` give -1 from `1+-+2`.
- Primitives.Binary: `-`, `mod`, `>` and `<` are modelled on integers and booleans only. Python also works on floats (the infinity that `/` returns) and, for `>`/`<`, on strings and lists. Those cases give `BadOperand` here. For `/` the model handles an infinite divisor: an integer or boolean dividend gives 0, as `int(x / inf)` does. An infinite dividend gives `BadOperand`, where Python raises an OverflowError or, for `inf / inf`, a ValueError.
- Primitives.DivideMeaning: `int(x / y)` goes through floating point. The model truncates exactly, which differs from Python's rounding for operands beyond the 53-bit precision of a float. For the same reason, a dividend too large for a float divided by `inf` raises OverflowError in Python, where the model gives 0.
- Types.ParseInt: `int(token)` also accepts underscores between digits, surrounding whitespace and non-ASCII digits. The model accepts only an optional sign followed by ASCII digits. No token from `Tokenize` has whitespace.
- Primitives.Show: `print-num` of a procedure or a primitive prints Python's `repr`, which includes the object's address. The model prints that text without the address.
- The state after an error. An exception ends evaluation, so after a `Fail` the model keeps the state as it was when the error arose. A `zip` update that meets an unhashable key part-way through leaves the earlier pairs in Python's dict; `Environment.Arena.Update` leaves the frame unchanged instead.
- Evaluator.Eval: a fuel bound replaces unbounded recursion. Each procedure call consumes one unit, and running out yields `OutOfFuel`. This stands for Python's non-termination. It matches Python's `RecursionError` only while the fuel is below Python's effective depth limit: a deep recursion that terminates gets a value once the fuel is large enough, where Python raises `RecursionError` at its depth limit. `Fuel.EvalMono` proves that a finished evaluation gives the same result and state for every larger fuel, so the bound cuts computations short and changes nothing else.
- Runtime.EvalAll: on failure the contract fixes the arena, the output and the error. It does not say which elements of `exps` were already overwritten.
- The fresh copy made by `(_, *exps) = exp` in the variadic branch. Expressions are immutable values here, so the source expression is unchanged trivially.
- `find` modifying no frame: `Find` is a function over the arena, so it cannot change anything.
- Python object identity: two procedures are equal here when their parameters, body and frame are equal.
