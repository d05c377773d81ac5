# STEP physical-file lexer and grammar (ISO 10303-21)

A Dafny model of the lexer and recursive grammar of `steputils.stepfile`.
This module reads the ISO 10303-21 "STEP physical file" exchange format:
the text that CAD and BIM tools (IFC models, for one) use to write entity
graphs. The grammar objects it exports are `string`, `BINARY`, `KEYWORD`,
`LIST`, `typed_parameter`, `header_entity` and `step_file`. Their behaviour
is pinned down by `tests/test_stepfile_tokenizer.py`.
`steputils/stepfile.py`'s own code is not modelled; its behaviour is taken
from its tests.

Every grammar object is modelled as a pure, total function over the fully
buffered text (`seq<char>`). It takes the offset where the rule starts and
returns a `Result`: either the value it built together with the offset just
past its last token, or the first error found. For `step_file` that offset
is the one just past `END-ISO-10303-21;`. A rule leaves whatever follows to
its caller, as pyparsing's `parseString` does; `Whole` asks for nothing but
layout after the rule, as `parseAll=True` does. Failure is a value
(`Failure(LexError | DecodeError | SyntaxError | Unsupported)`). The parser
does no recovery.

- `StringCodec` (strings.dfy) decodes the body of a string literal, following
  clause 6.4.3 of ISO 10303-21:2002. `''` stands for `'` and `\\` for `\`.
  `\X2\` opens a run of 4-hex-digit groups and `\X4\` a run of 8-hex-digit
  groups; each group is one character and `\X0\` closes the run. Every other
  character stands for itself. Its partner is the encoder `Encode`, and the
  two are tied by a round-trip lemma.
- `BinaryCodec` (binary.dfy) decodes the body of a binary literal, following
  clause 6.4.6 of the same edition. The body is a padding digit and then hex
  nibbles, and the result is a value together with its bit count. Its partner
  is `EncodeBinary`, tied by a round-trip lemma.
- `Numerals` (numerals.dfy) covers decimal and upper-case hexadecimal digit
  runs and their values.
- `Lexer` (lexer.dfy) holds the token scanners. It covers layout (blanks and
  `/* */` remarks) and keywords (`[!][A-Z_][A-Z0-9_]*`). It also covers string
  and binary literals, integers, reals kept exact as `mantissa * 10^exponent`,
  enumeration values `.NAME.` and the `#id` entity instance names.
- `Values` (values.dfy) holds the parse tree and its well-formedness
  invariant. `Grammar` (grammar.dfy) holds the rules:
  - `value`, `list` and `typed_parameter`; a keyword that no `(` follows
    is a value of its own, an atom;
  - `header_entity` and `simple_entity_instance`;
  - `step_file`;
  - `Whole`, which applies a rule to the whole input, the way pyparsing's
    `parseAll=True` does.
- `Printer` and `FilePrinter` (printer.dfy, file_printer.dfy) hold the
  grammar's partner, a printer. They also prove that the grammar reads every
  printed well-formed value back as exactly that value when the end of the
  text, `,`, `)` or `;` follows it, and every printed header entity,
  instance and file back as exactly that entity, instance or file.
- `Separators` (separators.dfy) proves how long a parsed list is: it holds
  one value more than the commas at its top level, and `()` is empty.
- `Fixtures` (fixtures.dfy) states each test's expected result about the
  model.

Clocks, I/O and randomness do not occur in this core. Reading the file is
left to the caller, who hands over the whole text.

Where ISO 10303-21 and the tests differ, the tests are followed, and two
modelling choices are made:

- `\X\hh`, `\S\`, `\P` and binary padding digits other than 0 are not
  exercised by the tests. The model reports them as `Unsupported` instead
  of decoding them.
- The keyword scanner takes the longest run of keyword characters and does
  not look at the character after it. So `KEYWORD.` and `KEYWORD!` are
  refused only when the keyword must be the whole input, which is how
  tests/test_stepfile_tokenizer.py:117-121 exercises them.

## Model

| member | source | states |
|---|---|---|
| `StringCodec.DecodeFrom` | tests/test_stepfile_tokenizer.py:56-89 | a decoded string body is never longer than the body, and a decoding error points at an offset inside the body |
| `StringCodec.DecodeUnescaped` | tests/test_stepfile_tokenizer.py:64-69 | a body containing no apostrophe and no backslash decodes to itself, so a double quote inside a string passes through unchanged |
| `StringCodec.DecodeDoubledRun` | tests/test_stepfile_tokenizer.py:56-77 | a run of 2n apostrophes, or of 2n backslashes, decodes to n such characters, and a run of odd length is refused, since its last character has no partner |
| `StringCodec.DecodeGroups` | tests/test_stepfile_tokenizer.py:84-85 | inside an extended run, consecutive hex groups of the run's width each decode to the character they spell, in order |
| `StringCodec.DecodeWideRun` | tests/test_stepfile_tokenizer.py:80-89 | a whole `\X2\`/`\X4\` run, from its opener to `\X0\`, decodes to the characters its groups spell, and plain decoding resumes after it |
| `StringCodec.DecodeEncode` | tests/test_stepfile_tokenizer.py:56-89 | round trip: decoding the encoding of any text, wherever it stands, gives that text back |
| `StringCodec.DecodeBodyEncode` | tests/test_stepfile_tokenizer.py:56-89 | round trip for a bare string body: `DecodeBody(Encode(x)) == Success(x)` for every text x |
| `BinaryCodec.DecodeBinaryFrom` | tests/test_stepfile_tokenizer.py:92-93 | a binary body decodes exactly when it is the padding digit 0 followed by hex digits; the value then fits in the bit count, which is four per hex digit |
| `BinaryCodec.DecodeEncodeBinary` | tests/test_stepfile_tokenizer.py:92-93 | round trip: every bit string a padding-0 literal can spell is decoded back from its encoding |
| `Numerals.NumeralValue` | tests/test_stepfile_tokenizer.py:80-93 | a digit run has a value exactly when every character is a digit of the radix, and that value is below radix^length |
| `Numerals.NumeralRoundTrip` | tests/test_stepfile_tokenizer.py:80-93 | reading back a fixed-width numeral gives the number it was written from |
| `Lexer.SkipLayoutIff` | tests/test_stepfile_tokenizer.py:51-53 | layout skipping from i stops at j if and only if the text between is white space and closed `/* */` remarks only, and neither a white space character nor a closed remark starts at j |
| `Lexer.ScanKeyword` | tests/test_stepfile_tokenizer.py:109-121 | the keyword scanner succeeds exactly when the text opens with an upper-case letter or `_`, optionally after `!`; it returns the longest run of keyword characters, unchanged, which satisfies the KEYWORD class |
| `Lexer.ScanKeywordAt` | tests/test_stepfile_tokenizer.py:109-114 | a keyword followed by a character that cannot extend it is scanned as exactly that keyword |
| `Lexer.KeywordIff` | tests/test_stepfile_tokenizer.py:109-121 | a text is read whole as a keyword if and only if it satisfies the KEYWORD character-class predicate |
| `Lexer.ClosingApostrophe` | tests/test_stepfile_tokenizer.py:56-61 | the closing apostrophe of a string literal is the first apostrophe that is not one of a doubled pair: the body before it is other characters and `''` pairs, and no apostrophe follows it; when there is none, the whole rest of the text is such a body |
| `Lexer.ClosingApostropheIff` | tests/test_stepfile_tokenizer.py:56-61 | the search for the closing apostrophe returns j if and only if the body up to j is other characters and `''` pairs and the apostrophe at j is not followed by another |
| `Lexer.ScanString` | tests/test_stepfile_tokenizer.py:56-89 | a scanned string literal ends just past an apostrophe, and its decoded text is shorter than the literal by at least the two delimiters |
| `Lexer.ScanBinary` | tests/test_stepfile_tokenizer.py:92-93 | a scanned binary literal ends at a double quote; its value fits its bit count, which is four per body hex digit |
| `Lexer.ScanNumber` | tests/test_stepfile_tokenizer.py:51-53 | a number token is non-empty and is not followed by a digit; a negative integer opens with `-` |
| `Lexer.ScanIntegerText` | tests/test_stepfile_tokenizer.py:51-53 | an integer `[+-]a`, followed by neither a digit nor a dot, is scanned as plus or minus the number the digits a spell |
| `Lexer.ScanRealText` | tests/test_stepfile_tokenizer.py:51-53 | a real `[+-]a.b[E[+-]c]`, followed by a character that cannot extend it, is scanned as the exact value +-(a * 10^len(b) + b) * 10^(c - len(b)), with c = 0 when the exponent part is absent |
| `Lexer.RealIffDot` | tests/test_stepfile_tokenizer.py:51-53 | a number token is a real, not an integer, if and only if its text contains a dot |
| `Lexer.ScanEntityName` | tests/test_stepfile_tokenizer.py:17-20 | an entity instance name is `#` followed by a maximal non-empty run of decimal digits, and its id is the number those digits spell |
| `Lexer.ScanEnumeration` | tests/test_stepfile_tokenizer.py:41-53 | an enumeration value is scanned exactly when `.` is followed by a keyword start, keyword characters and a closing `.`; the result is the name between the dots, ending just past the closing dot |
| `Lexer.EnumerationIff` | tests/test_stepfile_tokenizer.py:41-53 | `.n.` is read whole as an enumeration value if and only if n is an enumeration name |
| `Grammar.ParseValue` | tests/test_stepfile_tokenizer.py:41-53 | a parsed value (list, string, binary, reference, `$`, `*`, enumeration, number, typed parameter or a keyword standing alone) is well formed, with type names and atoms that are keywords and bit strings that fit their width, and it opens with a character that can start a value |
| `Grammar.ParseList` | tests/test_stepfile_tokenizer.py:41-53 | a parsed list ends with `)` and all its items are well formed |
| `Grammar.ParseItems` | tests/test_stepfile_tokenizer.py:51-53 | the items of a non-empty list are at least one well-formed value, closed by `)` |
| `Grammar.ParseTypedParameter` | tests/test_stepfile_tokenizer.py:96-106 | a typed parameter carries a type name that is a keyword and a well-formed parameter, and ends with `)` |
| `Grammar.ParseString` | tests/test_stepfile_tokenizer.py:56-89 | the `string` rule ends just past a closing apostrophe |
| `Grammar.ParseBinary` | tests/test_stepfile_tokenizer.py:92-93 | the `BINARY` rule yields a value that fits its bit count |
| `Grammar.ParseKeyword` | tests/test_stepfile_tokenizer.py:109-114 | the `KEYWORD` rule yields text that satisfies the KEYWORD class |
| `Grammar.ParseHeaderEntity` | tests/test_stepfile_tokenizer.py:36-38 | a header entity is a keyword name with well-formed parameters, and ends with `;` |
| `Grammar.ParseInstance` | tests/test_stepfile_tokenizer.py:17-20 | an entity instance is a keyword name with well-formed parameters, and ends with `;` |
| `Grammar.ParseStepFile` | tests/test_stepfile_tokenizer.py:31-33 | a parsed file is well formed, and the offset it returns lies just past a `END-ISO-10303-21;` in the text |
| `Grammar.WholeKeyword` | tests/test_stepfile_tokenizer.py:109-121 | for every text in which no layout can open, reading it as a whole-input KEYWORD succeeds if and only if the text is a keyword, and then yields the text itself |
| `Printer.ParsePrinted` | tests/test_stepfile_tokenizer.py:41-106 | round trip: every printed well-formed value of every kind, enumerations and atoms included, is read back by the value rule as exactly that value, ending just past its text, when the end of the text, `,`, `)` or `;` follows it |
| `Printer.ParsePrintedList` | tests/test_stepfile_tokenizer.py:41-53 | round trip: every printed list of well-formed values is read back by the list rule as exactly those values, in order |
| `Printer.ParsePrintedTyped` | tests/test_stepfile_tokenizer.py:96-106 | round trip: every printed typed parameter is read back by the typed_parameter rule as its type name and parameter |
| `FilePrinter.ParsePrintedHeader` | tests/test_stepfile_tokenizer.py:36-38 | round trip: every printed well-formed header entity is read back by the header_entity rule as exactly that entity |
| `FilePrinter.ParsePrintedInstance` | tests/test_stepfile_tokenizer.py:17-20 | round trip: every printed well-formed instance is read back as its id, name and parameters |
| `FilePrinter.ParsePrintedFile` | tests/test_stepfile_tokenizer.py:9-33 | round trip: the step_file rule reads every printed well-formed file back as exactly its header entities and instances, in order, ending at the end of the text, so it is also read back as the whole input |
| `Separators.ValueCommas` | tests/test_stepfile_tokenizer.py:46-53 | a value has no comma at its own nesting depth and closes every parenthesis it opens |
| `Separators.ItemsCommas` | tests/test_stepfile_tokenizer.py:51-53 | the items of a list contain one top-level comma fewer than there are items |
| `Separators.ListLength` | tests/test_stepfile_tokenizer.py:41-53 | a parsed list is empty exactly when `(` is followed, after layout, by `)`; otherwise its length is its number of top-level commas plus one |
| `Fixtures.HeaderEntityFileSchema` | tests/test_stepfile_tokenizer.py:36-38 | `FILE_SCHEMA(('IFC2X3'));` is the name FILE_SCHEMA with one parameter, the list holding the one string IFC2X3 |
| `Fixtures.EmptyList` | tests/test_stepfile_tokenizer.py:41-43 | `()` is the empty list |
| `Fixtures.ListOfOneString` | tests/test_stepfile_tokenizer.py:46-48 | `('IFC2X3')` is the list holding the one string IFC2X3 |
| `Fixtures.ListOfIntegerAndReal` | tests/test_stepfile_tokenizer.py:51-53 | `(1, 3.1415)` is the integer 1 followed by the exact real 31415 * 10^-4 |
| `Fixtures.DoubledApostrophe` | tests/test_stepfile_tokenizer.py:56-61 | `''''` is `'` and `'x''x'` is `x'x` |
| `Fixtures.QuoteInString` | tests/test_stepfile_tokenizer.py:64-69 | `'"'` is `"` and `'x"x'` is `x"x` |
| `Fixtures.DoubledBackslash` | tests/test_stepfile_tokenizer.py:72-77 | `'\\'` is `\` and `'x\\x'` is `x\x` |
| `Fixtures.ExtendedX2` | tests/test_stepfile_tokenizer.py:80-81 | `'\X2\00E4\X0\'` is the one character U+00E4 |
| `Fixtures.ExtendedX2Twice` | tests/test_stepfile_tokenizer.py:84-85 | `'\X2\00E400E4\X0\'` is U+00E4 twice |
| `Fixtures.ExtendedX4` | tests/test_stepfile_tokenizer.py:88-89 | `'\X4\000000E4\X0\'` is the one character U+00E4 |
| `Fixtures.BinaryFF` | tests/test_stepfile_tokenizer.py:92-93 | `"0FF"` is the value 255 in 8 bits |
| `Fixtures.TypedInteger` | tests/test_stepfile_tokenizer.py:96-99 | `TEST(100)` has type name TEST and parameter 100 |
| `Fixtures.TypedList` | tests/test_stepfile_tokenizer.py:102-106 | `TEST((100, 200))` has type name TEST and the list of 100 and 200 as its parameter |
| `Fixtures.ValidKeyword` | tests/test_stepfile_tokenizer.py:110 | `KEYWORD` is read unchanged |
| `Fixtures.ValidKeywordWithDigit` | tests/test_stepfile_tokenizer.py:111 | `KEYWORD_0` is read unchanged |
| `Fixtures.ValidKeywordWithUnderscore` | tests/test_stepfile_tokenizer.py:112 | `_KEYWORD_0` is read unchanged |
| `Fixtures.ValidUserKeyword` | tests/test_stepfile_tokenizer.py:113 | `!USER_KEYWORD` is read unchanged |
| `Fixtures.ValidUserKeywordWithUnderscore` | tests/test_stepfile_tokenizer.py:114 | `!_USER_KEYWORD` is read unchanged |
| `Fixtures.InvalidKeywordStart` | tests/test_stepfile_tokenizer.py:118 | `0KEYWORD` fails under whole-input parsing |
| `Fixtures.InvalidKeywordDot` | tests/test_stepfile_tokenizer.py:119 | `KEYWORD.` fails under whole-input parsing |
| `Fixtures.InvalidKeywordBang` | tests/test_stepfile_tokenizer.py:120 | `KEYWORD!` fails under whole-input parsing |
| `Fixtures.InvalidKeywordLowerCase` | tests/test_stepfile_tokenizer.py:121 | `Keyword` fails under whole-input parsing |
| `Fixtures.ShortStepFile` | tests/test_stepfile_tokenizer.py:9-33 | the short file's statements, written out, are read by the step_file rule as exactly those statements: three header entities and four instances, so the result is non-empty |

## Left out

- Fixtures.ShortStepFile: this is weaker than the test. It is stated for the short file written out without layout (no line breaks, no blank after `=`), not for the test's text character for character. The round trip `FilePrinter.ParsePrintedFile` covers every file written that way. The test itself checks only that the result is non-empty.
- The section assembler is not modelled: the instance-id map, the error for a repeated instance id, and the check for the mandatory header entities. tests/test_stepfile_tokenizer.py does not exercise them. `ParseStepFile` returns the statements in file order.
- Complex (multiply typed) entity instances are not modelled; tests/test_stepfile_tokenizer.py does not exercise them.
- The string escapes `\X\hh`, `\S\c` and `\P…\` are reported as `Unsupported` and are not decoded; tests/test_stepfile_tokenizer.py does not exercise them.
- Binary padding digits 1 to 3 are reported as `Unsupported`; tests/test_stepfile_tokenizer.py does not exercise them.
- Hex digits must be upper case, as ISO 10303-21 writes them. An `\X2\` group in the surrogate range, or an `\X4\` group above U+10FFFF, is a DecodeError, because Dafny's `char` holds Unicode scalar values only.
- Floating point is not modelled: a real is kept exact as `Real(mantissa, exponent)`, so `3.1415` is `Real(31415, -4)` and not a binary float.
- The pyparsing combinator machinery, `parseString`/`asList` and `ParseException` are a foreign library. A failure is a `Failure` value with an offset, and its message text is not part of the model.
- The pytest harness is not modelled.
