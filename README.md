# SIML lexer core, modelled in Dafny

SIML is a YAML-like language for describing agent-based simulations. This
project models the parts of its Python implementation that have real,
statable logic:

- the token kinds (`TokenType`) and the integer each kind carries;
- the lexeme matcher `TOKEN_REGEX`. It is an ordered alternation
  COLON | NUMBER | DASH | IDENTIFIER | STRING. At one position, the first
  alternative that matches wins, and each alternative's repetitions are
  greedy. `TokenRegex.MatchAt(s, i)` is `TOKEN_REGEX.match(s, i)`. It gives
  the kind of the matching group and the lexeme length, or `None`;
- the `Token` record, with its generated constructor and equality;
- the syntax-tree node classes, as one `Node` datatype, and every
  `get_children` as the function `AstNodes.Children`.

Files:

- `token_types.dfy`: the `Wrappers` module (`Option`) and `TokenTypes`.
- `token_regex.dfy`: `TokenRegex`. Each alternative has its own
  hand-written matcher. Each is proved to agree with a declarative definition
  of its language (`IsNumberLexeme`, `IsIdentifierLexeme`, `IsStringLexeme`).
- `token.dfy`: `Tokens`.
- `ast_nodes.dfy`: `AstNodes`.

Naming: the token field `type` is `kind` here, and in the node types `var`
is `variable` and the call's `function` is `callee`, because `type`, `var`
and `function` are Dafny keywords. A field name shared by two constructors
must have one type, so fields that share a name in the source but not a type
are renamed. `StateVarNode.value` is a node, so the `value` of
`StringNode`, `NumberNode` and `BooleanNode` is `text`, `number` and
`truth`. The agent's string `iterable` is `iterableName`, because
`ForNode.iterable` is a node. The template field keeps its spelling `scema`.

The alternation takes the first alternative that matches, not the longest.
The regular expression has only five groups, so `true` and `null` are
IDENTIFIER lexemes. The fourth token field is `indent`, and no code gives it
a meaning.

## Model

| member | source | states |
|---|---|---|
| `TokenTypes.Value` | siml/token_types.py:4-14 | every member carries an integer in 1..10 |
| `TokenTypes.FromValue` | siml/token_types.py:4-14 | lookup by value succeeds exactly for 1..10, and the found member carries that value |
| `TokenTypes.FromValueRoundTrip` | siml/token_types.py:4-14 | lookup by value undoes `Value` for every member |
| `TokenTypes.ValueInjective` | siml/token_types.py:4-14 | two members carry the same value iff they are the same member |
| `TokenTypes.Members` | siml/token_types.py:4-14 | iterating the enum gives ten members, none twice |
| `TokenTypes.MembersEnumerateValues` | siml/token_types.py:4-14 | the declaration-order list holds all ten members, with pairwise-distinct values that are exactly {1..10}; NULL (10) is declared before INDENT (7) |
| `TokenRegex.Span` | siml/token_types.py:18-22 | the greedy repetition: the run from `j` stays within the input, every character in it satisfies the class, and the character after it does not |
| `TokenRegex.MatchColon` | siml/token_types.py:17 | COLON matches iff the position holds `:`, and then exactly that one character |
| `TokenRegex.MatchNumber` | siml/token_types.py:18 | NUMBER matches iff a number start follows, after an optional `-`; the match has length >= 1 (>= 2 with a minus) and never stops just before a digit |
| `TokenRegex.MatchDash` | siml/token_types.py:19 | DASH matches iff the position holds `-`, and then exactly that one character |
| `TokenRegex.MatchIdentifier` | siml/token_types.py:21 | IDENTIFIER matches iff the position holds a letter or `_`; the match is all letters, digits and `_`, and is not followed by one |
| `TokenRegex.MatchString` | siml/token_types.py:22 | STRING matches iff the position holds a quote that occurs again later; the match ends at the first such quote and holds none inside |
| `TokenRegex.MatchAt` | siml/token_types.py:16-23 | a match has length >= 1, ends within the input, and its text is in the language of the group that matched |
| `TokenRegex.NumberPrefixWithinMatch` | siml/token_types.py:18 | every number lexeme that starts at `i` ends within what NUMBER matches at `i` |
| `TokenRegex.NumberMatchIsNumber` | siml/token_types.py:18 | what NUMBER matches is a number lexeme: an optional minus, then digits, or digits, a dot and at least one digit |
| `TokenRegex.NumberMatchIsLongest` | siml/token_types.py:18 | NUMBER matches the longest number-lexeme prefix, and fails iff no non-empty prefix is a number lexeme |
| `TokenRegex.UnsignedNumberBound` | siml/token_types.py:18 | an unsigned number at `j` lies within the digit run at `j`, or is that run, a dot, and part of the next digit run |
| `TokenRegex.IdentifierMatchIsLongest` | siml/token_types.py:21 | IDENTIFIER matches the longest identifier prefix, and fails iff none exists |
| `TokenRegex.StringMatchIsUnique` | siml/token_types.py:22 | STRING matches a prefix iff that prefix is a string lexeme: the quote, no such quote inside, the same quote |
| `TokenRegex.ColonAlwaysWins` | siml/token_types.py:17 | a `:` always gives COLON of length 1 |
| `TokenRegex.MinusIsNumberOrDash` | siml/token_types.py:18-19 | a `-` before a digit, or before `.` and a digit, starts a NUMBER of length >= 2; it gives DASH of length 1 iff no number follows; the NUMBER is the longest number-lexeme prefix |
| `TokenRegex.DigitStartsNumber` | siml/token_types.py:18-21 | a digit, or `.` before a digit, always starts a NUMBER, never an IDENTIFIER, and no longer prefix is a number lexeme |
| `TokenRegex.LetterStartsIdentifier` | siml/token_types.py:21 | a letter or `_` starts an IDENTIFIER that ends where the run of letters, digits and `_` ends |
| `TokenRegex.QuoteStartsString` | siml/token_types.py:22 | a quote matches iff the same quote occurs later, always as STRING, and exactly the string-lexeme prefix; an unclosed quote matches nothing |
| `TokenRegex.MatchIffCanStart` | siml/token_types.py:16-23 | a match exists iff the position holds `:`, `-`, a number start, a letter or `_`, or a quote that is closed later |
| `TokenRegex.NothingMatchesSeparators` | siml/token_types.py:16-23 | space, tab, `#` and `,` never begin a match |
| `TokenRegex.DecimalExamples` | siml/token_types.py:18 | `30.4` matches whole as NUMBER, `30.` matches only `30`, `1.2.3` matches `1.2` |
| `TokenRegex.LeadingDotExamples` | siml/token_types.py:18 | `.4` and `-.5` are NUMBERs; `.x` matches nothing |
| `TokenRegex.MinusExamples` | siml/token_types.py:18-19 | `-25` is one NUMBER of length 3; `- 5` starts with a DASH of length 1 |
| `TokenRegex.WordExamples` | siml/token_types.py:18-21 | `true` and `null` are IDENTIFIERs; `_x9` is one identifier; `9abc` starts with NUMBER `9` |
| `TokenRegex.StringExamples` | siml/token_types.py:22 | a double-quoted string keeps `#` and `'` inside |
| `TokenRegex.UnclosedExample` | siml/token_types.py:22 | `'unclosed` matches nothing |
| `TokenRegex.NestedQuoteExample` | siml/token_types.py:22 | a single-quoted string keeps the double quotes inside it |
| `Tokens.NewToken` | siml/token.py:6-10 | construction accepts any kind, value, line and indent, and stores each as given |
| `Tokens.ConstructionRoundTrip` | siml/token.py:6-10 | rebuilding a token from its four fields gives the same token |
| `Tokens.Equals` | siml/token.py:5 | the generated equality holds iff the two tokens are identical, and is symmetric |
| `Tokens.NewTokenInjective` | siml/token.py:5-10 | two constructed tokens are equal iff all four arguments are equal |
| `Tokens.KindIsMember` | siml/token.py:7 | a token's kind is one of the ten members and carries a value in 1..10 |
| `AstNodes.EntryValues` | siml/ast_nodes.py:50-51 | one node per dictionary entry, the entry's value, in order |
| `AstNodes.ArgValues` | siml/ast_nodes.py:185-186 | one node per call argument, the argument's value, in order |
| `AstNodes.Present` | siml/ast_nodes.py:99-100 | an optional node contributes nothing when absent, else exactly itself |
| `AstNodes.Children` | siml/ast_nodes.py:21-242 | every child is a strict sub-term of its node, so descending through children ends |
| `AstNodes.LeavesHaveNoChildren` | siml/ast_nodes.py:21-22 | base, string, number, boolean, null and identifier nodes have no children |
| `AstNodes.IfChildrenOrder` | siml/ast_nodes.py:68-69 | condition, then the then-branch, then the else-branch; length 1 + then + else |
| `AstNodes.ForChildrenOrder` | siml/ast_nodes.py:78-79 | iterable, then the body; length 1 + body |
| `AstNodes.SimulationChildrenOrder` | siml/ast_nodes.py:97-102 | config first and only when present, then agents, then modules; length agents + modules + (1 if config) |
| `AstNodes.AgentChildrenOrder` | siml/ast_nodes.py:225-231 | at most 2 children, LLM config before context, each only when present |
| `AstNodes.GenerateChildren` | siml/ast_nodes.py:153-154 | no children iff no multiplier, otherwise exactly the multiplier |
| `AstNodes.DictChildrenAreValues` | siml/ast_nodes.py:50-51 | as many children as entries, each the entry's value, keys dropped |
| `AstNodes.CallChildrenAreValues` | siml/ast_nodes.py:185-186 | as many children as arguments, each the argument's value, names dropped |
| `AstNodes.ModuleChildrenOrder` | siml/ast_nodes.py:113-114 | state, then actions, then rules, then templates, as consecutive slices |
| `AstNodes.ListChildren` | siml/ast_nodes.py:57-58 | a list literal's children are its elements |
| `AstNodes.NotChildren` | siml/ast_nodes.py:86-87 | exactly one child, the operand |
| `AstNodes.StateVarChildren` | siml/ast_nodes.py:128-129 | exactly one child, the value; the name is not a child |
| `AstNodes.ActionChildren` | siml/ast_nodes.py:137-138 | the body; name and parameters are not children |
| `AstNodes.RuleChildren` | siml/ast_nodes.py:145-146 | the body; the trigger is not a child |
| `AstNodes.AssignmentChildren` | siml/ast_nodes.py:168-169 | exactly one child, the value; the target is not a child |
| `AstNodes.BinaryExprChildren` | siml/ast_nodes.py:195-196 | left operand, then right operand; the operator is not a child |
| `AstNodes.TemplateChildren` | siml/ast_nodes.py:241-242 | exactly one child, the schema |

## Left out

- The tokenizer (siml/tokenizer.py) is a stub: `tokenize` only emits four trace messages and returns nothing. The enum declares KEYWORD, BOOLEAN, NULL, INDENT and DEDENT, but no code produces them. Nothing does indentation tracking, comment stripping, int/float coercion or keyword, boolean and null classification, so none of that is modelled. Nor is any loop that scans a whole line, because the code has none.
- The tracer (siml/tracer.py) is coloured console output behind a class-level flag. It is pure I/O.
- cli/main.py is a demo driver that edits `sys.path` and switches tracing on.
- The `__repr__` and `summary` methods of the node classes are not modelled. They depend on Python's rendering of ints, floats and strings.
- The node field `meta` is never used, so it is not modelled.
- TokenRegex.IsDigit: Python's `\d` on text patterns also matches non-ASCII decimal digits (Unicode category Nd). The model accepts only `0`-`9`.
- Tokens.Equals: the payload is compared with Dafny's equality on the type parameter. Python's `==` on an `Any` payload can also equate values of different types (`1 == 1.0 == True`).
- Tokens.NewToken: Python does not enforce type annotations. A `Token` could be built with a `type` that is not a `TokenType` member. The model types the field, so it assumes callers respect the annotation.
- AstNodes.Children: the same holds for the node fields. `config` is annotated as a dictionary literal and `agents` as agent nodes. The model lets any node stand there, as Python does at run time. `if self.config:` and `if self.multiplier:` are read as "is present", because no node class defines `__bool__` or `__len__`.
- `Token` and the node classes are ordinary, mutable and unhashable dataclasses. They are modelled as immutable values, because no code in the repository assigns to their fields after construction.
- A float in `NumberNode` is modelled as a `real`. No operation reads it.
- `ListLiteralNode`, `ActionNode` and `RuleNode` return their own list object as the children. Because Dafny sequences are values, the model does not capture that aliasing.
