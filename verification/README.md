# rscheme core in Dafny

A model of the two halves of rscheme, a small Lisp written in Ruby:

- the s-expression reader and printer of `sexp.rb`: `Sexp::IO#read_sexp`
  with its helpers for whitespace, tokens, strings, `#t`/`#f` and
  lists (proper and dotted), and the `to_sexp` methods that print
  values back;
- the evaluator of `interpreter.rb`: the `Scope` chain of frames, the four
  `Builtin` primitives (`cons`, `car`, `cdr`, `+`), `Interpreter#eval` with
  the special forms `quote`, `lambda`, `define` and `set!` (and `if`, which
  is listed as special but has no rule), and `Closure#call`.

Modules, leaf first:

- `Values`: the tagged union of Lisp values and the list helpers (`Cons#each`, `to_a`).
- `Reader`: the reader as pure functions of a text and a position.
- `ReaderLemmas`: what each reader step does.
- `Printer`: `to_sexp`.
- `RoundTrip`: printing then reading gives back the value.
- `Scope`: frames in a store, named by id.
- `EvalErrors`: the special-form names of `@@specials` and the errors evaluation can raise.
- `Builtins`: the primitives.
- `Interpreter`: `eval`, the special forms, closure calls.
- `InterpreterProps`: the evaluation rules as lemmas.
- `Fuel`: the step bound never changes an answer.

How the model stands in for things Ruby does implicitly:

- Ruby objects become datatypes.
- Exceptions become `Err` values of the `ReadError` and `EvalError`
  datatypes, one constructor per raise site.
- The character stream is a string and an index.
- Frames, which closures share and `define`/`set!` update in place, live in
  a store: a map from frame id to frame, where a frame's parent always has
  a smaller id.
- Evaluation carries a fuel count, because evaluated programs need not
  terminate; the `Fuel` lemmas show the bound only cuts runs short.

Behaviour of the code worth knowing, which the model keeps:

- Unlike standard Scheme, `set!` (interpreter.rb:166-170) stores its
  operand *unevaluated*, and in the *current* frame. So `(set! x (+ 1 2))`
  binds `x` to the list `(+ 1 2)`. A `set!` inside a closure of a name bound
  only outside it shadows that name and leaves the outer binding alone
  (`InterpreterProps.SetShadowsOuter`).
- `if` is listed in `@@specials` but the interpreter has no `if` method, so
  every `if` form fails (`InterpreterProps.IfAlwaysFails`).
- A closure called with fewer arguments than parameters binds the missing
  ones to nil, because Ruby's `zip` pads with nil (`Interpreter.PadArg`).
- A parameter list of `#f` behaves like nil, because `if @lambda_list` treats
  false as absent.
- The reader's number patterns accept a leading `+` as well as `-`.

## Model

| member | source | states |
|---|---|---|
| Values.PrimNamed | interpreter.rb:40-45 | `Builtin.new` accepts exactly the four primitive names and gives the primitive of that name |
| Values.ToArray | interpreter.rb:107-110 | `to_a` succeeds exactly on nil and cons chains, giving the chain's cars in order; any other value fails with itself |
| Values.Elements | sexp.rb:135-141 | `each` yields nothing exactly for a value that is not a cons, and yields the car first; that the cars are the whole chain is `Values.FromSeqElements` |
| Values.FromSeqElements | sexp.rb:135-141 | `each` loses nothing: rebuilding a chain from the cars it yields and the tail it stops at gives the original chain |
| Values.ElementsFromSeq | sexp.rb:135-141 | a chain built from a sequence and a non-cons tail yields exactly that sequence and ends in that tail |
| Values.ToArrayIgnoresTail | interpreter.rb:107-110 | `to_a` of a chain with at least one element ignores an improper tail |
| Reader.DrainWs | sexp.rb:33-41 | skipping whitespace stops at the first non-whitespace character or at the end, and skips only whitespace |
| Reader.ScanToken | sexp.rb:71-83 | a token runs up to the first whitespace or parenthesis, which is left unread, or to the end |
| Reader.ScanString | sexp.rb:85-97 | a scanned literal ends just after a `"`, and the text ending first is an unterminated-string error; that this is the first unescaped `"` is `ReaderLemmas.ScanStringBody` |
| Reader.Classify | sexp.rb:14-19 | a token becomes an integer exactly when it matches the integer pattern, a float (keeping its text) exactly when it matches only the float pattern, and otherwise the symbol named by the token; the integer's value is in `ReaderLemmas.ClassifyCases` |
| Reader.ReadSexp | sexp.rb:6-21 | reading stays within the text, and the end-of-input sentinel comes back only once the text is used up |
| Reader.ReadDatum | sexp.rb:8-20 | reading a value from a non-blank position consumes at least one character, unless it starts at `)` |
| Reader.ReadCdr | sexp.rb:49-64 | the rest of a list, when it reads, consumes at least one character and ends just after a closing `)` |
| ReaderLemmas.EofIffBlank | sexp.rb:6-9 | reading gives the end-of-input sentinel exactly when only whitespace is left |
| ReaderLemmas.IntAndFloatDisjoint | sexp.rb:15-19 | no token matches both the integer and the float pattern |
| ReaderLemmas.FloatTokenSplit | sexp.rb:17 | a token matches the float pattern exactly when, after an optional sign, it is digits, a point and digits |
| ReaderLemmas.ClassifyCases | sexp.rb:15-19 | an integer token reads as its integer, a float token as a float and anything else as the symbol of that name |
| ReaderLemmas.ClassifyIntExamples | sexp.rb:16 | `-42` reads as -42 and `+007` as 7 |
| ReaderLemmas.ClassifyFloatExamples | sexp.rb:17-18 | `1.5` is a float, while `1.` and `-` are symbols |
| ReaderLemmas.ReadBareToken | sexp.rb:13-19 | any other first character starts a token, classified as integer, float or symbol |
| ReaderLemmas.ReadHashForm | sexp.rb:99-110 | `#t` and `#f` read as true and false |
| ReaderLemmas.ReadStringLiteral | sexp.rb:85-97 | a string literal reads as its text between the quotes and ends after the closing quote |
| ReaderLemmas.ScanStringBody | sexp.rb:85-97 | the text between the quotes of a scanned literal has only escaped quotes and no dangling backslash |
| ReaderLemmas.ReadListOpen | sexp.rb:66-69 | `(` is consumed and the rest of the list is read |
| ReaderLemmas.ReadSexpDatum | sexp.rb:6-20 | after whitespace, a value is read from the first other character |
| ReaderLemmas.ReadListClose | sexp.rb:52-54 | `)` after optional whitespace ends a list with nil |
| ReaderLemmas.ReadListElement | sexp.rb:61-62 | any other character starts an element, consed onto the rest of the list |
| ReaderLemmas.ReadListDot | sexp.rb:55-60 | `.` reads one value as the list's tail, then demands `)` |
| ReaderLemmas.ReadListDotAtEnd | sexp.rb:44-60 | a `.` with nothing after it fails because `)` was expected and the input ended |
| ReaderLemmas.ReadListAtEnd | sexp.rb:49-64 | a list whose text ends before its `)` is an error |
| ReaderLemmas.ReadCdrSkipsWs | sexp.rb:49-51 | whitespace before the rest of a list changes nothing |
| Printer.ToSexp | sexp.rb:131-208 | only a float or symbol with empty text prints as nothing, and a cons prints as its inner text and two parentheses; the full layout is `Printer.PrintedList` and its inverse `RoundTrip.RoundTrip` |
| Printer.InnerToSexp | sexp.rb:145-153 | the inner text of a cell is at least as long as its printed car; its exact form is `Printer.InnerIsJoined` |
| Printer.NatDigits | sexp.rb:177-181 | an integer's digits are non-empty and all decimal digits |
| Printer.PrintedList | sexp.rb:131-153 | a chain prints as its cars, space separated, in parentheses, with ` . tail` before `)` exactly when the tail is not nil |
| Printer.InnerIsJoined | sexp.rb:145-153 | the inner text of a chain is its printed cars joined by spaces, then ` . ` and the tail when that is not nil |
| Printer.PrintedProperList | sexp.rb:131-133 | a proper list prints as its printed elements, space separated, inside parentheses, and the empty list as `()` |
| RoundTrip.NatDigitsValue | sexp.rb:16 | reading back the printed digits of a natural number gives that number |
| RoundTrip.IntTextIsToken | sexp.rb:16 | a printed integer matches the integer pattern and converts back to the same integer |
| RoundTrip.ReadAtom | sexp.rb:6-21 | a printed readable atom followed by a delimiter reads back as that atom and stops right after it |
| RoundTrip.ReadStr | sexp.rb:85-97 | a printed string literal with a well-formed body reads back as that body |
| RoundTrip.ReadPrinted | sexp.rb:6-21 | every printed readable value followed by a delimiter reads back as that value and stops right after it |
| RoundTrip.ReadPrintedInner | sexp.rb:49-64 | the inner text of a printed cons cell and its `)` read as the rest of a list giving that cell |
| RoundTrip.ReadTail | sexp.rb:49-64 | what follows the car in a printed cell (`)`, a space and more elements, or ` . ` and an atom) reads as the cell's cdr |
| RoundTrip.RoundTrip | sexp.rb:6-153 | reading the printed form of any readable value gives back that value and ends at the end of the text |
| RoundTrip.RoundTripBeforeWhitespace | sexp.rb:6-41 | with whitespace after the printed form, reading stops right after the value and the next read gives the end-of-input sentinel |
| Scope.Includes | interpreter.rb:24-32 | the recursive walk of `include?` itself, with no contract of its own; what it means against the chain of frames is `Scope.IncludesIffInChain`, in both directions |
| Scope.Get | interpreter.rb:10-18 | the frame's own binding wins, and a name bound nowhere in the chain reads as nil; the binding found through the chain is `Scope.GetInnermost` |
| Scope.IncludesIffInChain | interpreter.rb:24-32 | `include?` holds exactly when some frame of the chain binds the name |
| Scope.GetInnermost | interpreter.rb:10-18 | `[]` returns the binding in the first frame of the chain that binds the name |
| Scope.LookupAgrees | interpreter.rb:10-32 | lookups from a frame depend only on that frame and its ancestors |
| Scope.Assign | interpreter.rb:20-22 | `[]=` binds the name in that frame alone, keeps its other names and changes no other frame |
| Scope.AssignInnermost | interpreter.rb:20-22 | after `[]=` the frame sees the new value, other names read as before, and ancestors see no change |
| Scope.NewScope | interpreter.rb:4-8 | a new scope is a fresh, empty frame with the given parent, and no existing frame changes |
| Scope.Nest | interpreter.rb:34-36 | `nest` makes a fresh child frame of the frame |
| Scope.NestSeesParent | interpreter.rb:34-36 | a freshly nested scope sees exactly its parent's bindings |
| Builtins.AddAllToScope | interpreter.rb:47-51 | the four primitives are bound under their names in the frame; every other name is left as it was |
| Builtins.Add | interpreter.rb:69-71 | `+` adds two integers without overflow or concatenates two strings; every other pair of operands fails |
| Builtins.AddLaws | interpreter.rb:69-71 | whether `+` succeeds does not depend on operand order, integer sums commute, and string concatenation is associative |
| Builtins.ApplyPrim | interpreter.rb:53-71 | a primitive fails on the wrong number of arguments; `cons` builds a pair; `car`/`cdr` succeed exactly on a cons and take its parts |
| Builtins.ConsCarCdr | interpreter.rb:57-67 | `car` and `cdr` give back the parts `cons` was given |
| Interpreter.SpecialNamed | interpreter.rb:76 | exactly `define`, `if`, `quote`, `lambda` and `set!` name special forms |
| Interpreter.Initial | interpreter.rb:78-83 | a new interpreter has a root frame binding exactly the four primitives |
| Interpreter.NestInterp | interpreter.rb:93-95 | a nested interpreter has a fresh child frame with the primitives bound again, and no other frame changes |
| Interpreter.ParamNames | interpreter.rb:132-133 | a parameter list is usable exactly when it is nil, false or a cons, and then its names are the chain's cars |
| Interpreter.Zip | interpreter.rb:133-135 | binding parameters touches only the call's frame and keeps the store valid |
| Interpreter.CallFrame | interpreter.rb:131-136 | a call's frame is new, a child of the closure's frame, and no existing frame changes |
| Interpreter.Eval | interpreter.rb:97-117 | evaluation keeps the store valid and never removes a frame or changes its parent |
| Interpreter.Application | interpreter.rb:108-112 | so does an application |
| Interpreter.EvalSpecial | interpreter.rb:119-170 | so does a special form |
| Interpreter.EvalArgs | interpreter.rb:110-112 | arguments give one value each, and the store stays valid and extended |
| Interpreter.Apply | interpreter.rb:130-143 | so does calling a builtin or a closure |
| Interpreter.EvalBody | interpreter.rb:138-142 | so does running a closure body |
| InterpreterProps.EvalSymbolInnermost | interpreter.rb:99-104 | a symbol evaluates to the binding of the first frame of the chain that binds it, leaving the store alone |
| InterpreterProps.EvalSymbolUnbound | interpreter.rb:99-104 | a symbol no frame binds fails as unbound |
| InterpreterProps.EvalBoundSymbol | interpreter.rb:99-101 | a bound symbol evaluates to its lookup |
| InterpreterProps.EvalSelf | interpreter.rb:114-116 | anything neither a symbol nor a cons evaluates to itself |
| InterpreterProps.SpecialDispatch | interpreter.rb:105-107 | a list headed by a special form's name goes to that form with unevaluated operands, whatever the name is bound to |
| InterpreterProps.QuoteOperand | interpreter.rb:119-121 | `quote` returns its one operand unevaluated and fails on any other count |
| InterpreterProps.IfAlwaysFails | interpreter.rb:105-107 | every `if` form fails, and not for lack of fuel |
| InterpreterProps.LambdaCaptures | interpreter.rb:150-152 | `lambda` makes a closure over the current frame with its parameter list and body unevaluated; without operands it fails |
| InterpreterProps.DefineValue | interpreter.rb:154-158 | `(define x e)` evaluates `e`, binds `x` to the value in the current frame only, and returns the value; other frames, including any that bind an outer `x`, are untouched |
| InterpreterProps.DefineValueArity | interpreter.rb:157 | a symbol `define` with other than one body expression fails |
| InterpreterProps.DefineProcedure | interpreter.rb:159-160 | `(define (f . params) body...)` binds `f` in the current frame to a closure over that frame and evaluates nothing |
| InterpreterProps.DefineInvalid | interpreter.rb:154-163 | `define` without operands, or with a target neither a symbol nor a cons, fails |
| InterpreterProps.SetBang | interpreter.rb:166-170 | `set!` of a non-symbol or an unbound name fails; otherwise it binds the name to the operand as written, in the current frame only |
| InterpreterProps.SetArity | interpreter.rb:166 | `set!` takes exactly two operands |
| InterpreterProps.SetShadowsOuter | interpreter.rb:166-170 | `set!` of a name bound only in the parent frame leaves the parent's binding unchanged and binds the name in the current frame |
| InterpreterProps.ApplicationIgnoresTail | interpreter.rb:107-110 | an improper tail after the arguments of an application is ignored |
| InterpreterProps.ApplicationOrder | interpreter.rb:108-112 | an application evaluates the operator first, then checks the argument list, then evaluates the arguments in the store the operator left, then applies |
| InterpreterProps.EvalArgsAppend | interpreter.rb:110-112 | arguments are evaluated left to right: all of the first part, then all of the rest in the store the first part left |
| InterpreterProps.EvalArgsSingle | interpreter.rb:110-112 | a single argument evaluates exactly as the expression does |
| InterpreterProps.ApplyBuiltin | interpreter.rb:53-55 | calling a builtin runs its primitive and leaves the store alone; a value neither builtin nor closure is not callable |
| InterpreterProps.ZipBinds | interpreter.rb:132-136 | each parameter ends up bound to the argument at its position, nil past the end of the arguments, and the last of equal names wins |
| InterpreterProps.ZipKeeps | interpreter.rb:132-136 | names that are not parameters keep their bindings in the call's frame |
| InterpreterProps.CallFrameBindsParam | interpreter.rb:130-136 | in a call's frame each parameter is bound to its argument |
| InterpreterProps.CallFrameBuiltins | interpreter.rb:93-95 | in a call's frame every primitive not shadowed by a parameter is bound again |
| InterpreterProps.CallFrameLexical | interpreter.rb:123-136 | in a call's frame any other name is looked up as in the closure's defining frame, not the caller's |
| InterpreterProps.EvalBodyLast | interpreter.rb:138-142 | a body runs expression by expression, each in the store the one before left, and gives its last value |
| InterpreterProps.ApplyClosure | interpreter.rb:130-143 | calling a closure runs its body from a nil result in the call's frame |
| InterpreterProps.ClosureBadParams | interpreter.rb:132-133 | a closure whose parameter list has no `zip` fails on every call |
| InterpreterProps.ClosureCall | interpreter.rb:138-142 | a closure with an empty body returns nil; otherwise it returns the last body expression's value, evaluated after all the earlier ones |
| InterpreterProps.ClosureCallOne | interpreter.rb:138-142 | a closure with one body expression returns that expression's value in the call's frame |
| InterpreterProps.AddExample | interpreter.rb:69-71 | `(+ 1 2)` in a fresh interpreter evaluates to 3 |
| InterpreterProps.IdentityCall | interpreter.rb:130-143 | `(lambda (x) x)` returns its argument and changes no existing frame |
| InterpreterProps.IdentityBody | interpreter.rb:133-134 | in the frame of a call of `(lambda (x) x)`, `x` is the argument |
| InterpreterProps.IdentityExample | interpreter.rb:130-152 | `((lambda (x) x) 5)` gives 5, and `x` stays unbound in the root frame |
| Fuel.EvalMono | interpreter.rb:97-117 | more fuel never changes an evaluation that did not run out |
| Fuel.ApplicationMono | interpreter.rb:108-112 | the same for an application |
| Fuel.EvalSpecialMono | interpreter.rb:154-170 | the same for a special form |
| Fuel.EvalArgsMono | interpreter.rb:110-112 | the same for an argument list |
| Fuel.ApplyMono | interpreter.rb:130-143 | the same for a call |
| Fuel.EvalBodyMono | interpreter.rb:138-142 | the same for a closure body |

## Left out

- `repl.rb`, the loop that reads, evaluates and prints, is not part of this model.
- `String#undump` at the end of `sexp_read_string`: a `Str` keeps the literal's text between the quotes with its escapes still encoded, so the printer writes that text back unchanged. A body that `undump` would reject is not detected: one with a non-ASCII character (`"é"` reads as `Str("é")`), a NUL byte, or a malformed `\u` or `\x` escape.
- Floats: `tok.to_f` is not computed. A `Float` keeps its token text and prints as that text. `+` with a float operand fails with `FloatArithmetic`, where Ruby would add.
- `Object#to_sexp` (`inspect`) for strings, floats, builtins and closures: strings and floats print as their token text, builtins and closures as fixed tags. `Array#to_sexp` is left out because the reader never builds arrays.
- `Cons#inspect` and `Cons#to_s` are not modelled: the first is debugging output, the second is `to_sexp`.
- The `Eof` singleton (defined in `./object`, which is not part of this model) is the datatype constructor `Eof`.
- `Reader.ReadCdr`: when the text ends inside a list, the Ruby reader recurses without end (until the stack overflows) before building any cell: `Cons.new(read_sexp, sexp_read_cdr_cons)` at sexp.rb:62 evaluates its second argument by recursing again. The model stops with `UnterminatedList`.
- The `IO`, `StringIO` and `String` wrappers (sexp.rb:157-169) and `getc`/`ungetc`/`peek` are modelled as a string and a position.
- `Interpreter#[]` and `#[]=` (interpreter.rb:85-91) only forward to the scope; the model uses `Scope.Get` and `Scope.Assign` directly.
- `Reader.ScanString`: its contract says only that a scanned literal ends just after a `"`. That this is the first unescaped `"` is stated separately, by `ReaderLemmas.ScanStringBody`.
- `Scope.Includes`: it has no contract of its own. Its meaning against the chain of frames is stated once, by `Scope.IncludesIffInChain`.
- `Interpreter.Eval`: evaluation carries a fuel count and gives `OutOfFuel` when it runs out. A Ruby program that loops forever, or recurses until the stack overflows, has no answer in the model. The `Fuel` lemmas show fuel never changes an answer that was reached.
- `Interpreter.Zip`: a parameter that is not a symbol is skipped. Ruby binds it under a hash key that `eval` never looks up.
- `Interpreter.EvalSpecial`: a `define` target `(name . params)` whose name is not a symbol binds nothing and returns the closure. Ruby stores the closure under a key no lookup reads.
- `Interpreter.Apply`: a closure over a frame the store does not hold fails with `DanglingScope`. Ruby closures hold their frame directly, so this case never arises there.
- Errors carry no store: every Ruby exception ends the whole top-level evaluation, and `repl.rb` does not rescue it. Bindings made before the failure are therefore not modelled.
- Exception messages, and `send`/`method_missing` as mechanisms, are left out. Each raise site, `NoMethodError` and `ArgumentError` is an `EvalError` constructor.
