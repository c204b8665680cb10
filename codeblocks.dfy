/** The code-block plugin: choosing the markup dialect from the document's
    location, turning a matched region into compiled source, claiming the
    region, and running a parsed block against the namespace shared by all
    blocks of one document. */
module CodeBlocks {
  import opened Wrappers
  import opened Strings
  import opened Textwrap

  // ---------------------------------------------------------------------------
  // Dialects and their boundary patterns
  // ---------------------------------------------------------------------------

  /** reStructuredText directives, or MyST fences and `%` comment markers. */
  datatype Dialect = Rst | Myst

  /** The four compiled regular expressions, named and not interpreted. */
  datatype Pattern = CodeblockStartRst | CodeblockEndRst | CodeblockStartMyst | CodeblockEndMyst
  {
    function Dialect(): Dialect
    {
      match this
      case CodeblockStartRst => Rst
      case CodeblockEndRst => Rst
      case CodeblockStartMyst => Myst
      case CodeblockEndMyst => Myst
    }

    predicate IsStart()
    {
      this == CodeblockStartRst || this == CodeblockStartMyst
    }
  }

  /** `CODEBLOCK_START`: the MyST start pattern for a `.md` location, else the RST one. */
  function StartPattern(location: string): (p: Pattern)
    ensures p.IsStart()
    ensures p.Dialect() == Myst <==> EndsWith(location, ".md")
  {
    if EndsWith(location, ".md") then CodeblockStartMyst else CodeblockStartRst
  }

  /** `CODEBLOCK_END`, chosen by its own test of the same suffix. */
  function EndPattern(location: string): (p: Pattern)
    ensures !p.IsStart()
    ensures p.Dialect() == Myst <==> EndsWith(location, ".md")
  {
    if EndsWith(location, ".md") then CodeblockEndMyst else CodeblockEndRst
  }

  /** The start pattern is a start pattern, the end pattern an end pattern, both
      belong to one dialect, and that dialect is MyST exactly when the location
      is some name followed by `.md`. */
  lemma PatternsOfOneDialect(location: string)
    ensures StartPattern(location).IsStart() && !EndPattern(location).IsStart()
    ensures StartPattern(location).Dialect() == EndPattern(location).Dialect()
    ensures StartPattern(location).Dialect() == Myst <==> exists name: string :: name + ".md" == location
  {
    EndsWithIffConcat(location, ".md");
  }

  // ---------------------------------------------------------------------------
  // From region text to source
  // ---------------------------------------------------------------------------

  /** `text[matchEnd:]` with Python's slicing: an offset past the end gives "". */
  function AfterMatch(text: string, matchEnd: nat): (rest: string)
    ensures |rest| == if matchEnd <= |text| then |text| - matchEnd else 0
    ensures text[|text| - |rest|..] == rest
  {
    if matchEnd <= |text| then text[matchEnd..] else []
  }

  /** No newline in `s` is directly followed by `%`. */
  predicate NoCommentMarker(s: string)
  {
    forall i :: 0 <= i < |s| - 1 ==> !(s[i] == '\n' && s[i + 1] == '%')
  }

  /** What the substitution removes after one newline: a leading `%` and at
      most one space after it. What is left is a suffix of `line`. */
  function StripMarker(line: string): (rest: string)
    ensures |rest| <= |line| && line[|line| - |rest|..] == rest
  {
    if |line| >= 2 && line[0] == '%' && line[1] == ' ' then line[2..]
    else if |line| >= 1 && line[0] == '%' then line[1..]
    else line
  }

  function StripMarkers(lines: seq<string>): (out: seq<string>)
    ensures |out| == |lines|
  {
    seq(|lines|, i requires 0 <= i < |lines| => StripMarker(lines[i]))
  }

  /** `re.sub(r'\n%[ ]?', '\n', s)`: scanning left to right, each newline
      followed by `%` loses the `%` and at most one space after it, and the
      scan resumes after what was removed. */
  function StripMystComments(s: string): string
    decreases |s|
  {
    if s == [] then []
    else if s[0] == '\n' then "\n" + StripMystComments(StripMarker(s[1..]))
    else [s[0]] + StripMystComments(s[1..])
  }

  /** Stripping never makes the text longer. */
  lemma {:induction false} StripNotLonger(s: string)
    ensures |StripMystComments(s)| <= |s|
  {
    if s != [] {
      if s[0] == '\n' {
        StripNotLonger(StripMarker(s[1..]));
      } else {
        StripNotLonger(s[1..]);
      }
    }
  }

  /** Removing a marker removes only `%` and space characters. */
  lemma StripMarkerCount(line: string, c: char)
    requires c != '%' && c != ' '
    ensures Count(StripMarker(line), c) == Count(line, c)
  {
    if |line| >= 1 && line[0] == '%' {
      assert Count(line, c) == Count(line[1..], c);
      if |line| >= 2 && line[1] == ' ' {
        assert line[1..][1..] == line[2..];
        assert Count(line[1..], c) == Count(line[2..], c);
      }
    }
  }

  /** Stripping removes no newline and adds none. */
  lemma {:induction false} StripKeepsNewlines(s: string)
    ensures Count(StripMystComments(s), '\n') == Count(s, '\n')
  {
    if s != [] {
      if s[0] == '\n' {
        var rest := StripMarker(s[1..]);
        StripKeepsNewlines(rest);
        StripMarkerCount(s[1..], '\n');
        CountAppend("\n", StripMystComments(rest), '\n');
      } else {
        StripKeepsNewlines(s[1..]);
        CountAppend([s[0]], StripMystComments(s[1..]), '\n');
      }
    }
  }

  /** Text in which no newline is followed by `%` comes back unchanged. */
  lemma {:induction false} StripWithoutMarker(s: string)
    requires NoCommentMarker(s)
    ensures StripMystComments(s) == s
  {
    if s != [] {
      assert NoCommentMarker(s[1..]) by {
        forall i | 0 <= i < |s[1..]| - 1 ensures !(s[1..][i] == '\n' && s[1..][i + 1] == '%') {
          assert s[1..][i] == s[i + 1] && s[1..][i + 1] == s[i + 2];
        }
      }
      if s[0] == '\n' {
        assert |s| >= 2 ==> s[1] != '%';
        assert StripMarker(s[1..]) == s[1..];
      }
      StripWithoutMarker(s[1..]);
      assert [s[0]] + s[1..] == s;
    }
  }

  /** One step of the scan over a character that is not a newline. */
  lemma StripCons(c: char, s: string)
    requires c != '\n'
    ensures StripMystComments([c] + s) == [c] + StripMystComments(s)
  {
    assert ([c] + s)[1..] == s;
  }

  /** One step of the scan over a newline. */
  lemma StripNewline(s: string)
    ensures StripMystComments("\n" + s) == "\n" + StripMystComments(StripMarker(s))
  {
    assert ("\n" + s)[1..] == s;
  }

  lemma {:induction false} StripLinePrefix(a: string, b: string)
    requires '\n' !in a
    ensures StripMystComments(a + b) == a + StripMystComments(b)
  {
    if a != [] {
      var c, tail := a[0], a[1..];
      assert a + b == [c] + (tail + b);
      StripCons(c, tail + b);
      StripLinePrefix(tail, b);
      assert [c] + (tail + StripMystComments(b)) == a + StripMystComments(b);
    } else {
      assert a + b == b;
    }
  }

  /** A marker lies within one line: what follows the line does not change it. */
  lemma StripMarkerAppend(line: string, tail: string)
    requires tail == [] || tail[0] == '\n'
    ensures StripMarker(line + tail) == StripMarker(line) + tail
  {
    var s := line + tail;
    if |line| >= 2 && line[0] == '%' && line[1] == ' ' {
      assert s[0] == '%' && s[1] == ' ';
      assert s[2..] == line[2..] + tail;
    } else if |line| >= 1 && line[0] == '%' {
      assert s[0] == '%' && !(|s| >= 2 && s[1] == ' ');
      assert s[1..] == line[1..] + tail;
    } else {
      assert !(|s| >= 1 && s[0] == '%');
    }
  }

  lemma StripMarkerNoNewline(line: string)
    requires '\n' !in line
    ensures '\n' !in StripMarker(line)
  {
    var rest := StripMarker(line);
    forall k | 0 <= k < |rest| ensures rest[k] != '\n' {
      assert rest[k] == line[|line| - |rest| + k];
    }
  }

  /** One step of the scan over a newline, the line after it and what follows. */
  lemma StripMarkedLine(line: string, tail: string)
    requires '\n' !in line
    requires tail == [] || tail[0] == '\n'
    ensures StripMystComments("\n" + line + tail) == "\n" + StripMarker(line) + StripMystComments(tail)
  {
    Assoc("\n", line, tail);
    StripNewline(line + tail);
    StripMarkerAppend(line, tail);
    StripMarkerNoNewline(line);
    StripLinePrefix(StripMarker(line), tail);
    Assoc("\n", StripMarker(line), StripMystComments(tail));
  }

  lemma StripMarkersCons(lines: seq<string>)
    requires |lines| >= 1
    ensures StripMarkers(lines)[0] == StripMarker(lines[0])
    ensures StripMarkers(lines)[1..] == StripMarkers(lines[1..])
  {
  }

  lemma NoNewlinesTail(lines: seq<string>)
    requires |lines| >= 1 && NoNewlines(lines)
    ensures '\n' !in lines[0] && NoNewlines(lines[1..])
  {
    assert forall i :: 0 <= i < |lines| - 1 ==> lines[1..][i] == lines[i + 1];
  }

  lemma {:induction false} StripAfterNewline(lines: seq<string>)
    requires |lines| >= 1 && NoNewlines(lines)
    ensures StripMystComments("\n" + Join(lines)) == "\n" + Join(StripMarkers(lines))
  {
    var line, rest := lines[0], lines[1..];
    var out := StripMarkers(lines);
    NoNewlinesTail(lines);
    StripMarkersCons(lines);
    if |lines| == 1 {
      assert "\n" + Join(lines) == "\n" + line + [];
      StripMarkedLine(line, []);
      assert "\n" + StripMarker(line) + [] == "\n" + Join(out);
    } else {
      var tail := "\n" + Join(rest);
      JoinCons(lines);
      Assoc("\n", line, tail);
      StripMarkedLine(line, tail);
      StripAfterNewline(rest);
      JoinCons(out);
      Assoc("\n", out[0], "\n" + Join(out[1..]));
    }
  }

  /** Stripping joined lines keeps the first line and strips the marker at
      the head of every later one. */
  lemma StripJoined(lines: seq<string>)
    requires |lines| >= 1 && NoNewlines(lines)
    ensures StripMystComments(Join(lines)) == Join([lines[0]] + StripMarkers(lines[1..]))
  {
    var first, rest := lines[0], lines[1..];
    var out := [first] + StripMarkers(rest);
    NoNewlinesTail(lines);
    if |lines| == 1 {
      assert Join(lines) == first + [];
      StripLinePrefix(first, []);
      assert Join(out) == first;
    } else {
      JoinCons(lines);
      StripLinePrefix(first, "\n" + Join(rest));
      StripAfterNewline(rest);
      assert out[1..] == StripMarkers(rest);
      JoinCons(out);
    }
  }

  /** Stripping works line by line: the first line is kept and every later line
      loses a leading `%` and at most one space after it. */
  lemma StripMystCommentsByLine(s: string)
    ensures var lines := Split(s);
      Split(StripMystComments(s)) == [lines[0]] + StripMarkers(lines[1..])
  {
    var lines := Split(s);
    var out := [lines[0]] + StripMarkers(lines[1..]);
    JoinSplit(s);
    StripJoined(lines);
    assert NoNewlines(out) by {
      forall i | 0 <= i < |out| ensures '\n' !in out[i] {
        if i > 0 {
          StripMarkerNoNewline(lines[i]);
        }
      }
    }
    SplitJoin(out);
  }

  /** `codeblock.py` lines 36-38: de-indent the text after the start marker, then strip the
      `%` comment markers, in either dialect. */
  function PrepareSource(candidate: string): string
  {
    StripMystComments(Dedent(candidate))
  }

  /** The source keeps the candidate's newlines and is never longer. */
  lemma PrepareSourceShape(candidate: string)
    ensures Count(PrepareSource(candidate), '\n') == Count(candidate, '\n')
    ensures |PrepareSource(candidate)| <= |candidate|
  {
    DedentKeepsLineCount(candidate);
    DedentNotLonger(candidate);
    StripKeepsNewlines(Dedent(candidate));
    StripNotLonger(Dedent(candidate));
  }

  // ---------------------------------------------------------------------------
  // Location tags
  // ---------------------------------------------------------------------------

  /** `"%s:%d" % (location, lineno)`. */
  function SourceLocation(location: string, lineno: int): string
  {
    location + ":" + FormatInt(lineno)
  }

  /** Index of the last occurrence of `c` in `s`. */
  function LastIndexOf(s: string, c: char): (r: Option<nat>)
    ensures r.Some? ==> r.value < |s| && s[r.value] == c && c !in s[r.value + 1..]
    ensures r.None? ==> c !in s
  {
    if s == [] then None
    else if s[|s| - 1] == c then Some(|s| - 1)
    else
      var r := LastIndexOf(s[..|s| - 1], c);
      assert s == s[..|s| - 1] + [s[|s| - 1]];
      r
  }

  /** Splits a tag at its last colon into the location and the line number. */
  function ParseSourceLocation(tag: string): Option<(string, int)>
  {
    match LastIndexOf(tag, ':')
    case None => None
    case Some(k) =>
      match ParseInt(tag[k + 1..])
      case None => None
      case Some(n) => Some((tag[..k], n))
  }

  /** The tag determines the document location and the line number, even when
      the location itself holds colons. */
  lemma SourceLocationRoundTrip(location: string, lineno: int)
    ensures ParseSourceLocation(SourceLocation(location, lineno)) == Some((location, lineno))
  {
    var digits := FormatInt(lineno);
    ParseFormatInt(lineno);
    var tag := SourceLocation(location, lineno);
    var k := |location|;
    assert tag[k] == ':';
    assert tag[k + 1..] == digits;
    var r := LastIndexOf(tag, ':');
    assert r.Some? by { assert ':' in tag; }
    assert tag[..k] == location;
  }

  // ---------------------------------------------------------------------------
  // Code blocks and regions
  // ---------------------------------------------------------------------------

  /** A compiled code object; `compile` records the filename it was given. */
  datatype Code<B> = Code(filename: string, body: B)

  /** The `CodeBlock` record: the compiled code and the source it came from. */
  datatype CodeBlock<B> = CodeBlock(code: Code<B>, source: string)

  /** What a region carries: nothing yet, another plugin's artifact, or a code block. */
  datatype Parsed<B> = Unparsed | Foreign(owner: string) | Block(block: CodeBlock<B>)

  /** The exceptions that leave the plugin. */
  datatype Error =
    | StartNotFound                                    // `.end()` on a failed search
    | SyntaxError(filename: string, message: string)   // raised by `compile`
    | RuntimeError(filename: string, message: string)  // raised by `exec`
    | KeyError(key: string)                            // `del` of a missing key

  /** Python's `compile(source, ...)`: the compiled body or a syntax error message. */
  type Compiler<!B> = string -> Result<B, string>

  /** `pattern.search(text).end()`: where the first match ends, if any. */
  type Searcher = (Pattern, string) -> Option<nat>

  /** `codeblock.py` lines 35-42 for one region, without the side effects: the code block the
      region is annotated with, or the exception raised. */
  function ExtractBlock<B>(location: string, text: string, lineno: int,
                           search: Searcher, compile: Compiler<B>): Result<CodeBlock<B>, Error>
  {
    match search(StartPattern(location), text)
    case None => Err(StartNotFound)
    case Some(matchEnd) =>
      var source := PrepareSource(AfterMatch(text, matchEnd));
      var tag := SourceLocation(location, lineno);
      match compile(source)
      case Err(message) => Err(SyntaxError(tag, message))
      case Ok(body) => Ok(CodeBlock(Code(tag, body), source))
  }

  /** An extracted block holds the code compiled from its own stored source,
      filed under the region's `location:lineno` tag, and that source is the
      prepared text after the start marker. */
  lemma BlockCompiledFromItsSource<B>(location: string, text: string, lineno: int,
                                      search: Searcher, compile: Compiler<B>)
    requires ExtractBlock(location, text, lineno, search, compile).Ok?
    ensures var block := ExtractBlock(location, text, lineno, search, compile).value;
      search(StartPattern(location), text).Some? &&
      block.source == PrepareSource(AfterMatch(text, search(StartPattern(location), text).value)) &&
      compile(block.source) == Ok(block.code.body) &&
      block.code.filename == SourceLocation(location, lineno)
  {
  }

  /** Extraction fails only when the start marker is missing or the source
      does not compile; a syntax error carries the region's tag and the
      compiler's message. */
  lemma ExtractBlockErrors<B>(location: string, text: string, lineno: int,
                              search: Searcher, compile: Compiler<B>)
    ensures var r := ExtractBlock(location, text, lineno, search, compile);
      r.Err? ==>
        (r.error == StartNotFound <==> search(StartPattern(location), text).None?) &&
        (r.error.SyntaxError? ==>
          r.error.filename == SourceLocation(location, lineno) &&
          compile(PrepareSource(AfterMatch(text, search(StartPattern(location), text).value))) ==
            Err(r.error.message)) &&
        (r.error.StartNotFound? || r.error.SyntaxError?)
  {
  }

  /** The stored source has as many lines as the text after the start marker,
      and is never longer than the region's text. */
  lemma ExtractedSourceShape<B>(location: string, text: string, lineno: int,
                                search: Searcher, compile: Compiler<B>)
    requires ExtractBlock(location, text, lineno, search, compile).Ok?
    ensures var source := ExtractBlock(location, text, lineno, search, compile).value.source;
      var candidate := AfterMatch(text, search(StartPattern(location), text).value);
      Count(source, '\n') == Count(candidate, '\n') && |source| <= |text|
  {
    var candidate := AfterMatch(text, search(StartPattern(location), text).value);
    PrepareSourceShape(candidate);
  }

  /** A start marker that ends the region leaves an empty block. */
  lemma EmptyBodyGivesEmptySource<B>(location: string, text: string, lineno: int,
                                     search: Searcher, compile: Compiler<B>)
    requires search(StartPattern(location), text) == Some(|text|)
    requires compile([]).Ok?
    ensures ExtractBlock(location, text, lineno, search, compile).Ok?
    ensures ExtractBlock(location, text, lineno, search, compile).value.source == []
  {
    assert Split([]) == [[]];
    assert Dedent([]) == [];
  }

  /** A host region: its text, its line in the document, and what it was parsed into. */
  class Region<B> {
    const source: string
    const lineno: int
    var parsed: Parsed<B>

    constructor (source: string, lineno: int)
      ensures this.source == source && this.lineno == lineno && parsed == Unparsed
    {
      this.source := source;
      this.lineno := lineno;
      parsed := Unparsed;
    }
  }

  /** The host document: its location, the regions the host's scanner finds
      for each pair of boundary patterns, and the set of claimed regions. */
  class Document<B> {
    const location: string
    const scanned: map<(Pattern, Pattern), seq<Region<B>>>
    var claimed: set<Region<B>>

    constructor (location: string, scanned: map<(Pattern, Pattern), seq<Region<B>>>)
      ensures this.location == location && this.scanned == scanned && claimed == {}
    {
      this.location := location;
      this.scanned := scanned;
      claimed := {};
    }

    /** `document.find_regions(start, end)`: what the scanner found for the pair,
        nothing for a pair it never scanned for. */
    function FindRegions(start: Pattern, end: Pattern): seq<Region<B>>
    {
      if (start, end) in scanned then scanned[(start, end)] else []
    }

    /** `document.claim_region(region)`. */
    method ClaimRegion(region: Region<B>)
      modifies this
      ensures claimed == old(claimed) + {region}
    {
      claimed := claimed + {region};
    }

    /** The regions `find_regions` yields for this document's dialect. */
    function CandidateRegions(): seq<Region<B>>
    {
      FindRegions(StartPattern(location), EndPattern(location))
    }

    function Extraction(region: Region<B>, search: Searcher, compile: Compiler<B>): Result<CodeBlock<B>, Error>
    {
      ExtractBlock(location, region.source, region.lineno, search, compile)
    }

  }

  /** The set of elements of a sequence. */
  function Members<T>(s: seq<T>): set<T>
  {
    set x | x in s
  }

  lemma MembersOfLongerPrefix<T>(s: seq<T>, i: nat)
    requires i < |s|
    ensures Members(s[..i + 1]) == Members(s[..i]) + {s[i]}
  {
    assert s[..i + 1] == s[..i] + [s[i]];
  }

  /** `find_code_blocks(document)`: the regions of the document's dialect
      are visited in order, each extracted as `ExtractBlock` describes (see
      `AnnotateRegions`). The host yields each region once. */
  method FindCodeBlocks<B>(document: Document<B>, search: Searcher, compile: Compiler<B>)
    returns (error: Option<Error>, ghost done: nat)
    requires forall j, k :: 0 <= j < k < |document.CandidateRegions()| ==>
      document.CandidateRegions()[j] != document.CandidateRegions()[k]
    modifies document, document.CandidateRegions()
    ensures done <= |document.CandidateRegions()|
    ensures error.None? <==> done == |document.CandidateRegions()|
    ensures error.Some? ==>
      document.Extraction(document.CandidateRegions()[done], search, compile) == Err(error.value)
    ensures forall j :: 0 <= j < done ==>
      document.Extraction(document.CandidateRegions()[j], search, compile).Ok? &&
      document.CandidateRegions()[j].parsed ==
        Block(document.Extraction(document.CandidateRegions()[j], search, compile).value)
    ensures forall j :: done <= j < |document.CandidateRegions()| ==>
      document.CandidateRegions()[j].parsed == old(document.CandidateRegions()[j].parsed)
    ensures document.claimed == old(document.claimed) + Members(document.CandidateRegions()[..done])
  {
    var regions := document.FindRegions(StartPattern(document.location), EndPattern(document.location));
    error, done := AnnotateRegions(document, regions, (r: Region<B>) => document.Extraction(r, search, compile));
  }

  /** The loop of `find_code_blocks`, for any way `extract` of turning a region
      into a block or an exception: each region whose extraction succeeds is
      claimed and given its block; the first exception stops the pass, leaving
      that region and the later ones untouched. `done` counts the regions
      that were claimed. */
  method AnnotateRegions<B>(document: Document<B>, regions: seq<Region<B>>,
                            extract: Region<B> -> Result<CodeBlock<B>, Error>)
    returns (error: Option<Error>, ghost done: nat)
    requires forall j, k :: 0 <= j < k < |regions| ==> regions[j] != regions[k]
    modifies document, regions
    ensures done <= |regions|
    ensures error.None? <==> done == |regions|
    ensures error.Some? ==> extract(regions[done]) == Err(error.value)
    ensures forall j :: 0 <= j < done ==>
      extract(regions[j]).Ok? && regions[j].parsed == Block(extract(regions[j]).value)
    ensures forall j :: done <= j < |regions| ==> regions[j].parsed == old(regions[j].parsed)
    ensures document.claimed == old(document.claimed) + Members(regions[..done])
  {
    var i := 0;
    while i < |regions|
      invariant 0 <= i <= |regions|
      invariant forall j :: 0 <= j < i ==>
        extract(regions[j]).Ok? && regions[j].parsed == Block(extract(regions[j]).value)
      invariant forall j :: i <= j < |regions| ==> regions[j].parsed == old(regions[j].parsed)
      invariant document.claimed == old(document.claimed) + Members(regions[..i])
    {
      var region := regions[i];
      var outcome := extract(region);
      if outcome.Err? {
        return Some(outcome.error), i;
      }
      label before:
      document.ClaimRegion(region);
      region.parsed := Block(outcome.value);
      forall j | 0 <= j < i
        ensures regions[j].parsed == Block(extract(regions[j]).value)
      {
        assert regions[j].parsed == old@before(regions[j].parsed);
      }
      forall j | i + 1 <= j < |regions|
        ensures regions[j].parsed == old(regions[j].parsed)
      {
        assert regions[j].parsed == old@before(regions[j].parsed);
      }
      MembersOfLongerPrefix(regions, i);
      i := i + 1;
    }
    assert regions[..i] == regions;
    return None, i;
  }

  // ---------------------------------------------------------------------------
  // Execution
  // ---------------------------------------------------------------------------

  /** The key `exec` adds to a namespace it runs code in. */
  const Builtins: string := "__builtins__"

  /** What `exec` left: the namespace after running, and the exception raised, if any. */
  datatype ExecOutcome<V> = ExecOutcome(globs: map<string, V>, raised: Option<string>)

  /** Python's `exec(code, globs)`. */
  type Executor<!B, !V> = (B, map<string, V>) -> ExecOutcome<V>

  /** The namespace after running one region, and the exception raised, if any. */
  datatype Step<V> = Step(globs: map<string, V>, error: Option<Error>)

  /** `codeblock.py` lines 46-50 on values. A region without a block is
      skipped. Otherwise `exec` runs; an exception it raises becomes a
      `RuntimeError` under the block's tag; else `__builtins__` is deleted,
      which raises `KeyError` when `exec` did not add it. */
  function ExecuteStep<B, V>(parsed: Parsed<B>, globs: map<string, V>, exec: Executor<B, V>): (r: Step<V>)
    ensures !parsed.Block? ==> r == Step(globs, None)
    ensures parsed.Block? ==>
      var after := exec(parsed.block.code.body, globs);
      (r.error.None? <==> after.raised.None? && Builtins in after.globs) &&
      (after.raised.Some? ==>
        r == Step(after.globs, Some(RuntimeError(parsed.block.code.filename, after.raised.value)))) &&
      (after.raised.None? && Builtins !in after.globs ==> r == Step(after.globs, Some(KeyError(Builtins)))) &&
      (r.error.None? ==>
        Builtins !in r.globs && r.globs.Keys == after.globs.Keys - {Builtins} &&
        forall name :: name in after.globs && name != Builtins ==> r.globs[name] == after.globs[name])
  {
    match parsed
    case Block(block) =>
      var after := exec(block.code.body, globs);
      if after.raised.Some? then Step(after.globs, Some(RuntimeError(block.code.filename, after.raised.value)))
      else if Builtins in after.globs then Step(after.globs - {Builtins}, None)
      else Step(after.globs, Some(KeyError(Builtins)))
    case _ => Step(globs, None)
  }

  /** The namespace shared by the blocks of one document. */
  class Namespace<V> {
    var bindings: map<string, V>

    constructor (bindings: map<string, V>)
      ensures this.bindings == bindings
    {
      this.bindings := bindings;
    }
  }

  /** `execute_code_block(region, document, globs)`. */
  method ExecuteCodeBlock<B, V>(region: Region<B>, document: Document<B>, globs: Namespace<V>,
                                exec: Executor<B, V>)
    returns (error: Option<Error>)
    modifies globs
    ensures Step(globs.bindings, error) == ExecuteStep(region.parsed, old(globs.bindings), exec)
  {
    if !region.parsed.Block? {
      return None;
    }
    var block := region.parsed.block;
    var after := exec(block.code.body, globs.bindings);
    globs.bindings := after.globs;
    if after.raised.Some? {
      return Some(RuntimeError(block.code.filename, after.raised.value));
    }
    if Builtins !in globs.bindings {
      return Some(KeyError(Builtins));
    }
    globs.bindings := globs.bindings - {Builtins};
    return None;
  }

  /** The execute pass over a document's regions in order, threading one
      namespace and stopping at the first exception. */
  function RunBlocks<B, V>(blocks: seq<Parsed<B>>, globs: map<string, V>, exec: Executor<B, V>)
    : Step<V>
  {
    if blocks == [] then Step(globs, None)
    else
      var step := ExecuteStep(blocks[0], globs, exec);
      if step.error.Some? then step else RunBlocks(blocks[1..], step.globs, exec)
  }

  /** A namespace that starts without `__builtins__` never shows it to the
      caller after a pass that raised nothing. */
  lemma {:induction false} BuiltinsNeverLeak<B, V>(blocks: seq<Parsed<B>>, globs: map<string, V>,
                                                  exec: Executor<B, V>)
    requires Builtins !in globs
    ensures RunBlocks(blocks, globs, exec).error.None? ==> Builtins !in RunBlocks(blocks, globs, exec).globs
  {
    if blocks != [] {
      var step := ExecuteStep(blocks[0], globs, exec);
      if step.error.None? {
        BuiltinsNeverLeak(blocks[1..], step.globs, exec);
      }
    }
  }

  /** A runtime failure of an extracted block is reported under its region's
      `location:lineno` tag. */
  lemma RuntimeErrorCarriesLocation<B, V>(location: string, text: string, lineno: int,
                                          search: Searcher, compile: Compiler<B>,
                                          globs: map<string, V>, exec: Executor<B, V>)
    requires ExtractBlock(location, text, lineno, search, compile).Ok?
    ensures var block := ExtractBlock(location, text, lineno, search, compile).value;
      var r := ExecuteStep(Block(block), globs, exec);
      r.error.Some? && r.error.value.RuntimeError? ==>
        ParseSourceLocation(r.error.value.filename) == Some((location, lineno))
  {
    SourceLocationRoundTrip(location, lineno);
  }
}
