# Manuel code blocks, modelled in Dafny

This project models the code-block plugin of Manuel (`src/manuel/codeblock.py`).
The plugin finds Python code samples in reStructuredText or MyST/Markdown
documents and runs them in document order against one namespace shared by the
document's blocks.

The model covers the two passes of the plugin:

- **Parse pass** (`find_code_blocks`):
  - The document location picks the boundary patterns. A location ending in
    `.md` gets the MyST start and end patterns; any other location gets the
    reStructuredText pair.
  - For each region the host finds, the model takes the text after the first
    start-marker match and de-indents it the way `textwrap.dedent` does.
  - It then removes a `%` and at most one following space after every
    newline, as `re.sub(r'\n%[ ]?', '\n', ...)` does.
  - It builds the `location:lineno` tag and compiles the source under that tag.
  - A region is claimed and given its `CodeBlock` only if compilation succeeds.
    The first failure stops the pass.
- **Execute pass** (`execute_code_block`):
  - A region that holds no `CodeBlock` leaves the namespace alone.
  - Otherwise the block's code is executed in the namespace, and the
    `__builtins__` entry that `exec` adds is deleted again.

Files:

- `wrappers.dfy`: `Option` and `Result`.
- `strings.dfy`:
  - `split('\n')` and `'\n'.join` with their round trips;
  - `endswith`;
  - the decimal rendering `%d` and its inverse.
- `textwrap.dfy`: `textwrap.dedent` and its laws.
- `codeblocks.dfy`:
  - dialect selection;
  - region text to source;
  - the location tag;
  - the `Region`, `Document` and `Namespace` classes;
  - the two passes.

Things the model treats as parameters because their code is not part of this
model:

- The regex engine appears only as `search(pattern, text)`. It returns where
  the first match ends, or nothing.
- Python's `compile` may fail with a message.
- Python's `exec` returns the namespace it left and the exception it raised, if
  any.
- The host document's region scanner is a map from pattern pairs to the regions
  it found.

Exceptions that leave the plugin are `Error` values:

- `StartNotFound` is the `AttributeError` of `.end()` on a failed search.
- `SyntaxError` comes from `compile`.
- `RuntimeError` comes from `exec`.
- `KeyError` comes from deleting a missing `__builtins__`.

The comment at `codeblock.py` line 37 (`# MyST comments`) labels the `%`
stripping a MyST feature, but line 38 applies it to the sources of both
dialects. The model follows the code: `PrepareSource` takes no dialect.

## Model

| member | source | states |
|---|---|---|
| CodeBlocks.CodeBlock | src/manuel/codeblock.py:19-22 | the record of a compiled code object and its source; `BlockCompiledFromItsSource` states that the code is compiled from exactly that source |
| CodeBlocks.StartPattern | src/manuel/codeblock.py:26-30 | a start pattern, of the MyST dialect exactly when the location ends with `.md` |
| CodeBlocks.EndPattern | src/manuel/codeblock.py:31-33 | an end pattern, of the MyST dialect exactly when the location ends with `.md`, by its own test of the suffix |
| CodeBlocks.PatternsOfOneDialect | src/manuel/codeblock.py:26-33 | one start and one end pattern are chosen, both of the same dialect, and the dialect is MyST exactly when the location is some name followed by `.md` |
| CodeBlocks.AfterMatch | src/manuel/codeblock.py:35-36 | the candidate is the suffix of the region text from the end of the start match; it has length `len(text) - end`, or is empty for an offset past the end (Python slicing) |
| Textwrap.Dedent | src/manuel/codeblock.py:36 | `textwrap.dedent`; its contract is carried by the `Textwrap.Dedent*`, `MarginIsLongest` and `CommonIndentSomeIff` rows below |
| Textwrap.DedentKeepsLineCount | src/manuel/codeblock.py:36 | de-indenting keeps the number of lines and the number of newlines |
| Textwrap.DedentLineShape | src/manuel/codeblock.py:36 | the margin taken off is whitespace common to every non-blank line; each non-blank input line is the margin followed by its output line; blank lines come out empty |
| Textwrap.DedentBlankness | src/manuel/codeblock.py:36 | a non-blank line stays non-blank after de-indenting and a blank one becomes empty |
| Textwrap.MarginIsLongest | src/manuel/codeblock.py:36 | every whitespace prefix common to all non-blank lines is a prefix of the margin, so the margin is the longest one |
| Textwrap.CommonIndentSomeIff | src/manuel/codeblock.py:36 | a margin exists exactly when some line is not blank |
| Textwrap.DedentLeavesNoCommonIndent | src/manuel/codeblock.py:36 | after de-indenting, the only whitespace prefix common to all non-blank lines is the empty one, when such a line exists |
| Textwrap.DedentIdempotent | src/manuel/codeblock.py:36 | de-indenting a second time changes nothing |
| Textwrap.DedentNotLonger | src/manuel/codeblock.py:36 | de-indenting never makes the text longer |
| Textwrap.DedentReindent | src/manuel/codeblock.py:36 | indenting every non-blank line by the same whitespace before de-indenting makes no difference to the result |
| CodeBlocks.StripMystComments | src/manuel/codeblock.py:38 | the left-to-right `re.sub(r'\n%[ ]?', '\n', ..)` scan; its contract is carried by the `Strip*` rows below |
| CodeBlocks.StripKeepsNewlines | src/manuel/codeblock.py:38 | removing comment markers removes and adds no newline |
| CodeBlocks.StripNotLonger | src/manuel/codeblock.py:38 | removing comment markers never makes the text longer |
| CodeBlocks.StripWithoutMarker | src/manuel/codeblock.py:38 | text in which no newline is followed by `%` is returned unchanged |
| CodeBlocks.StripMystCommentsByLine | src/manuel/codeblock.py:38 | line by line, the first line is kept and every later line loses a leading `%` and at most one space after it (`%` alone, `% ` or `%%` each lose only the marker) |
| CodeBlocks.PrepareSource | src/manuel/codeblock.py:36-38 | de-indent, then strip comment markers, whatever the dialect; its contract is carried by the `PrepareSourceShape` row |
| CodeBlocks.PrepareSourceShape | src/manuel/codeblock.py:36-38 | the prepared source has as many newlines as the candidate and is never longer |
| Strings.FormatInt | src/manuel/codeblock.py:39 | `%d`: a minus sign for negative numbers, then the decimal digits; its contract is carried by the `ParseFormatInt` row |
| CodeBlocks.SourceLocation | src/manuel/codeblock.py:39 | `"%s:%d" % (location, lineno)`; its contract is carried by the `SourceLocationRoundTrip` row |
| Strings.ParseFormatInt | src/manuel/codeblock.py:39 | the decimal text of any integer, negative ones included, reads back as that integer and holds no colon |
| CodeBlocks.SourceLocationRoundTrip | src/manuel/codeblock.py:39 | the `location:lineno` tag determines both the location and the line number, even when the location holds colons |
| CodeBlocks.ExtractBlock | src/manuel/codeblock.py:35-40 | one region's block or exception; its contract is carried by the `BlockCompiledFromItsSource`, `ExtractBlockErrors`, `ExtractedSourceShape` and `EmptyBodyGivesEmptySource` rows |
| CodeBlocks.BlockCompiledFromItsSource | src/manuel/codeblock.py:35-42 | an extracted block exists only when the start marker was found; it stores exactly the de-indented, comment-stripped text after the marker, holds the code compiled from that text, and is filed under the region's tag |
| CodeBlocks.ExtractBlockErrors | src/manuel/codeblock.py:35-40 | extraction fails only on a missing start marker (exactly when the search fails) or on a syntax error, which carries the region's tag and the compiler's message |
| CodeBlocks.ExtractedSourceShape | src/manuel/codeblock.py:35-38 | the stored source has as many lines as the text after the start marker and is never longer than the region's text |
| CodeBlocks.EmptyBodyGivesEmptySource | src/manuel/codeblock.py:35-38 | a start marker that ends the region yields a block with empty source, when the empty source compiles |
| CodeBlocks.Document.ClaimRegion | src/manuel/codeblock.py:41 | claiming adds the region to the document's claimed set and nothing else |
| CodeBlocks.AnnotateRegions | src/manuel/codeblock.py:34-42 | the regions are processed in order; every region before the stopping point extracted successfully and now holds its block; the stopping region's error is returned, or the pass ran to the end; that region and every later one keep their old `parsed`; the claimed set grows by exactly the processed regions |
| CodeBlocks.FindCodeBlocks | src/manuel/codeblock.py:25-42 | the same, stated for the regions of the document's own dialect and for extraction as `ExtractBlock` defines it |
| CodeBlocks.ExecuteStep | src/manuel/codeblock.py:45-50 | a region without a block leaves the namespace unchanged and reports nothing; otherwise no error is reported exactly when exec raised nothing and left `__builtins__` in its map, and then the namespace is exec's map minus `__builtins__` with every other binding kept; an exception from exec becomes a `RuntimeError` under the block's tag with exec's map; a missing `__builtins__` gives `KeyError` |
| CodeBlocks.ExecuteCodeBlock | src/manuel/codeblock.py:45-50 | updating the namespace in place gives exactly the `ExecuteStep` namespace and error |
| CodeBlocks.BuiltinsNeverLeak | src/manuel/codeblock.py:49-50 | over a whole execute pass that raises nothing, a namespace that starts without `__builtins__` ends without it |
| CodeBlocks.RuntimeErrorCarriesLocation | src/manuel/codeblock.py:39-49 | a runtime failure of an extracted block is reported under a tag that reads back as the region's location and line number |

## Left out

- The regular expressions (lines 6-16) and how they match. The four patterns are tags, and `search` is a parameter that returns where the first start match ends.
- The host's `find_regions`, which lies outside this file. A `Document` holds what its scanner found for each pattern pair, and how the scanner splits a document into regions is not modelled.
- FindCodeBlocks: requires the regions the host yields to be distinct objects. The host produces each region once. Without distinctness, a region listed twice would be annotated on its second visit, and the "later regions untouched" clause would not hold.
- The semantics of `compile` and `exec`, the Python interpreter. Both are parameters. `compile`'s mode and flags arguments have no effect in the model.
- Tracebacks and exception types beyond the four `Error` cases. An exception is returned as a value and passes through no handler.
- The `Manuel` class (lines 53-55). It only registers the two functions with the `manuel` base class, which lies outside this file.
- Textwrap.Dedent: blank characters are only space and tab. Newer Python versions also treat other whitespace, such as form feed or carriage return, as part of a blank line's indentation, and that is not modelled.
- Strings are sequences of characters. Unicode normalisation and encodings play no part.
- The execute pass across regions (`RunBlocks`) stands for the host's loop, which is not part of this model. Only the single-region step is source code here.
