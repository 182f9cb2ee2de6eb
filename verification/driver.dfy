/**
 * The parse driver (tini_parse_core, tini_parse, tini_parse_cb): reads the
 * input chunk by chunk as fgets does with a buffer of LineSize characters,
 * numbers the lines from 1, classifies each line and either builds the
 * document (build mode, the C code's base0 != NULL), reports each section and
 * pair as an event (callback mode, handler != NULL), or both.
 *
 * RunFrom is the specification: a fold of Step over the chunks. ParseCore is
 * the loop of the C function over a line buffer, the mutable document and
 * the tokenizer's ParseOne, proved to agree with Run.
 */
module Driver {
  import opened TiniTypes
  import opened Text
  import opened Tokenizer
  import opened Store

  // ---------------------------------------------------------------------
  // fgets

  /** Where fgets, reading from `pos` and having read up to `i`, stops: after
      a newline, after LineSize - 1 characters or at the end of the input. */
  function ChunkEndFrom(input: string, pos: nat, i: nat): (e: nat)
    requires pos <= i <= |input| && i - pos <= LineSize - 1
    ensures i <= e <= |input| && e - pos <= LineSize - 1
    decreases |input| - i
  {
    if i == |input| || i - pos == LineSize - 1 then i
    else if input[i] == '\n' then i + 1
    else ChunkEndFrom(input, pos, i + 1)
  }

  /** The end of the chunk one fgets call returns when the input is at `pos`. */
  function ChunkEnd(input: string, pos: nat): (e: nat)
    requires pos < |input|
    ensures pos < e <= |input| && e - pos <= LineSize - 1
  {
    ChunkEndFrom(input, pos, pos)
  }

  /** What fgets reads from i on: no newline before the chunk's last character,
      and the chunk ends in a newline, holds LineSize - 1 characters, or ends
      the input. */
  lemma {:induction false} ChunkEndFromSpec(input: string, pos: nat, i: nat)
    requires pos <= i <= |input| && i - pos <= LineSize - 1
    requires i < |input| && i - pos < LineSize - 1
    ensures var e := ChunkEndFrom(input, pos, i);
      && i < e
      && (forall j :: i <= j < e - 1 ==> input[j] != '\n')
      && (input[e - 1] == '\n' || e - pos == LineSize - 1 || e == |input|)
    decreases |input| - i
  {
    if input[i] != '\n' && i + 1 < |input| && i + 1 - pos < LineSize - 1 {
      ChunkEndFromSpec(input, pos, i + 1);
    }
  }

  /** A chunk is a whole line, newline included, of at most LineSize - 1
      characters, or the longest newline-free prefix fgets can take. */
  lemma {:induction false} ChunkSpec(input: string, pos: nat)
    requires pos < |input|
    ensures var e := ChunkEnd(input, pos);
      && pos < e <= |input| && e - pos <= LineSize - 1
      && (forall j :: pos <= j < e - 1 ==> input[j] != '\n')
      && (input[e - 1] == '\n' || e - pos == LineSize - 1 || e == |input|)
  {
    ChunkEndFromSpec(input, pos, pos);
  }

  /** The chunks fgets returns from `pos` to the end of the input. */
  function Chunks(input: string, pos: nat): seq<string>
    requires pos <= |input|
    decreases |input| - pos
  {
    if pos == |input| then []
    else [input[pos..ChunkEnd(input, pos)]] + Chunks(input, ChunkEnd(input, pos))
  }

  /** The concatenation of a sequence of texts. */
  function Concat(ts: seq<string>): string
  {
    if ts == [] then [] else ts[0] + Concat(ts[1..])
  }

  /** Reading by chunks loses and repeats nothing: the chunks put back together
      are the input read from `pos`, and none of them is empty or longer than
      LineSize - 1. */
  lemma {:induction false} ChunksCover(input: string, pos: nat)
    requires pos <= |input|
    ensures Concat(Chunks(input, pos)) == input[pos..]
    ensures forall c :: c in Chunks(input, pos) ==> 0 < |c| <= LineSize - 1
    decreases |input| - pos
  {
    if pos < |input| {
      var e := ChunkEnd(input, pos);
      ChunksCover(input, e);
      var cs := Chunks(input, pos);
      assert cs[1..] == Chunks(input, e);
      assert input[pos..] == input[pos..e] + input[e..];
    }
  }

  // ---------------------------------------------------------------------
  // The run as a fold over the chunks

  /** One call of the C handler: the line number, the TINI_FLAG_* code, the
      section name and, for a pair, its key and value (NULL for a section). */
  datatype Event = Event(lineno: int, flag: int, section: string, key: Option<string>, value: Option<string>)

  /** What the loop of tini_parse_core carries from line to line: the document
      built so far, the name of the last section reported to the handler, and
      the handler calls made so far. */
  datatype State = State(doc: seq<SectionV>, sectionName: Option<string>, events: seq<Event>)

  const Start := State([], None, [])

  /** The document after tini_new_kv on its last section. */
  function AppendPair(doc: seq<SectionV>, kv: KV): (d: seq<SectionV>)
    requires doc != []
    ensures |d| == |doc|
    ensures forall i :: 0 <= i < |doc| - 1 ==> d[i] == doc[i]
    ensures d[|d| - 1].name == doc[|doc| - 1].name
    ensures d[|d| - 1].pairs == doc[|doc| - 1].pairs + [kv]
  {
    var last := doc[|doc| - 1];
    doc[|doc| - 1 := SectionV(last.name, last.pairs + [kv])]
  }

  /** The document after one classified line in build mode: a header opens a
      new, empty section; a pair goes to the last section opened, and is an
      error while there is none. */
  function BuildStep(doc: seq<SectionV>, tok: Token, lineno: int): Result<seq<SectionV>>
  {
    match tok
    case Ignore => Ok(doc)
    case Section(name) => Ok(doc + [SectionV(name, [])])
    case KeyValue(k, v) =>
      if doc == [] then Err(Error(SectionNotDefined, lineno))
      else Ok(AppendPair(doc, KV(k, v)))
  }

  /** The handler's current section and the handler calls after one classified
      line in callback mode: a header becomes the current section and is
      reported; a pair is reported with the current section, and is an error
      while there is none. */
  function NotifyStep(current: Option<string>, events: seq<Event>, tok: Token, lineno: int)
    : Result<(Option<string>, seq<Event>)>
  {
    match tok
    case Ignore => Ok((current, events))
    case Section(name) => Ok((Some(name), events + [Event(lineno, FlagSection, name, None, None)]))
    case KeyValue(k, v) =>
      if current.None? then Err(Error(SectionNotDefined, lineno))
      else Ok((current, events + [Event(lineno, FlagKeyValue, current.value, Some(k), Some(v))]))
  }

  /** The effect of one classified line on the state: the build-mode step
      first, then the callback-mode step, as tini_parse_core orders them. */
  function Step(st: State, tok: Token, lineno: int, build: bool, callback: bool): Result<State>
  {
    var d := if build then BuildStep(st.doc, tok, lineno) else Ok(st.doc);
    if d.Err? then Err(d.error)
    else
      var h := if callback then NotifyStep(st.sectionName, st.events, tok, lineno) else Ok((st.sectionName, st.events));
      if h.Err? then Err(h.error)
      else Ok(State(d.value, h.value.0, h.value.1))
  }

  /** What the loop gets from the line that starts at `pos` and is numbered
      `lineno`: a chunk that does not end in a newline is too long, any other
      chunk is handed to the tokenizer. */
  function ReadLine(input: string, pos: nat, lineno: int): (r: Result<Token>)
    requires pos < |input|
  {
    var line := input[pos..ChunkEnd(input, pos)];
    if line[|line| - 1] != '\n' then Err(Error(LineTooLong, lineno))
    else Classify(line, lineno)
  }

  /** The run of the loop from input position `pos`, after `lineno` lines. */
  function RunFrom(input: string, pos: nat, lineno: int, st: State, build: bool, callback: bool): (r: Result<State>)
    requires pos <= |input|
    decreases |input| - pos
  {
    if pos == |input| then Ok(st)
    else match ReadLine(input, pos, lineno + 1)
      case Err(err) => Err(err)
      case Ok(tok) =>
        match Step(st, tok, lineno + 1, build, callback)
        case Err(err) => Err(err)
        case Ok(st') => RunFrom(input, ChunkEnd(input, pos), lineno + 1, st', build, callback)
  }

  /** tini_parse_core on a whole input. */
  function Run(input: string, build: bool, callback: bool): Result<State>
  {
    RunFrom(input, 0, 0, Start, build, callback)
  }

  // ---------------------------------------------------------------------
  // Properties of the run

  /** A chunk is rejected as too long exactly when no newline lies within the
      LineSize - 1 characters fgets may take, which covers an overlong line and
      a last line without a newline; a line the tokenizer rejects carries the
      missing-separator error. */
  lemma {:induction false} ReadLineTooLong(input: string, pos: nat, n: int)
    requires pos < |input|
    ensures ReadLine(input, pos, n) == Err(Error(LineTooLong, n)) <==>
      forall j :: pos <= j < |input| && j < pos + LineSize - 1 ==> input[j] != '\n'
    ensures ReadLine(input, pos, n).Err? ==>
      ReadLine(input, pos, n).error in {Error(LineTooLong, n), Error(NoSeparator, n)}
  {
    ChunkSpec(input, pos);
    var e := ChunkEnd(input, pos);
    var line := input[pos..e];
    assert line[|line| - 1] == input[e - 1];
    if line[|line| - 1] == '\n' {
      TerminatedLineErrors(line, n);
    }
  }

  /** A run that succeeds met only chunks ending in a newline: the input is a
      sequence of whole lines of at most LineSize - 1 characters each, the
      newline included, with no newline before the end of any of them. */
  lemma {:induction false} AcceptedLines(input: string, pos: nat, lineno: int, st: State, build: bool, callback: bool)
    requires pos <= |input|
    requires RunFrom(input, pos, lineno, st, build, callback).Ok?
    ensures forall c :: c in Chunks(input, pos) ==>
      && 0 < |c| <= LineSize - 1 && c[|c| - 1] == '\n'
      && forall j :: 0 <= j < |c| - 1 ==> c[j] != '\n'
    decreases |input| - pos
  {
    if pos < |input| {
      var e := ChunkEnd(input, pos);
      var line := input[pos..e];
      ChunkSpec(input, pos);
      assert forall j :: 0 <= j < |line| - 1 ==> line[j] != '\n' by {
        forall j | 0 <= j < |line| - 1 ensures line[j] != '\n' {
          assert line[j] == input[pos + j];
        }
      }
      var tok := ReadLine(input, pos, lineno + 1).value;
      AcceptedLines(input, e, lineno + 1, Step(st, tok, lineno + 1, build, callback).value, build, callback);
    }
  }

  /** The state of a run in both modes is the build-only state's document with
      the callback-only state's current section and calls. */
  predicate Combined(sb: State, sc: State, both: State)
  {
    && both.doc == sb.doc && both.sectionName == sc.sectionName && both.events == sc.events
    && (sb.doc == [] <==> sc.sectionName.None?)
  }

  /** One line takes the build-only, the callback-only and the combined states
      to states related the same way, or all three to the same error. */
  lemma {:induction false} StepModes(sb: State, sc: State, both: State, tok: Token, n: int)
    requires Combined(sb, sc, both)
    ensures var rb, rc, r := Step(sb, tok, n, true, false), Step(sc, tok, n, false, true), Step(both, tok, n, true, true);
      && rb.Ok? == rc.Ok? && rb.Ok? == r.Ok?
      && (rb.Err? ==> rb.error == rc.error && rb.error == r.error)
      && (rb.Ok? ==> Combined(rb.value, rc.value, r.value))
  {
  }

  /** tini_parse and tini_parse_cb accept and reject the same inputs with the
      same error, and a run in both modes builds the document of the first and
      makes the handler calls of the second. */
  lemma {:induction false} ModesAgreeFrom(input: string, pos: nat, n: int, sb: State, sc: State, both: State)
    requires pos <= |input| && Combined(sb, sc, both)
    ensures var rb := RunFrom(input, pos, n, sb, true, false);
      var rc := RunFrom(input, pos, n, sc, false, true);
      var r := RunFrom(input, pos, n, both, true, true);
      && rb.Ok? == rc.Ok? && rb.Ok? == r.Ok?
      && (rb.Err? ==> rb.error == rc.error && rb.error == r.error)
      && (rb.Ok? ==> Combined(rb.value, rc.value, r.value))
    decreases |input| - pos
  {
    if pos < |input| {
      match ReadLine(input, pos, n + 1)
      case Err(_) =>
      case Ok(tok) =>
        StepModes(sb, sc, both, tok, n + 1);
        if Step(sb, tok, n + 1, true, false).Ok? {
          ModesAgreeFrom(input, ChunkEnd(input, pos), n + 1,
            Step(sb, tok, n + 1, true, false).value,
            Step(sc, tok, n + 1, false, true).value,
            Step(both, tok, n + 1, true, true).value);
        }
    }
  }

  /** The whole-input form of ModesAgreeFrom. */
  lemma {:induction false} ModesAgree(input: string)
    ensures Run(input, true, false).Ok? == Run(input, false, true).Ok?
    ensures Run(input, true, false).Ok? == Run(input, true, true).Ok?
    ensures Run(input, true, false).Err? ==>
      Run(input, true, false).error == Run(input, false, true).error &&
      Run(input, true, false).error == Run(input, true, true).error
    ensures Run(input, true, false).Ok? ==>
      Run(input, true, true) ==
        Ok(State(Run(input, true, false).value.doc, Run(input, false, true).value.sectionName,
                 Run(input, false, true).value.events))
  {
    ModesAgreeFrom(input, 0, 0, Start, Start, Start);
  }

  /** A header line always opens a new section, even under a name already
      used: a lookup still finds the first section of that name, and finds the
      new one only when the name is new. */
  lemma {:induction false} HeaderLookup(doc: seq<SectionV>, name: string, n: int, query: string)
    ensures BuildStep(doc, Section(name), n) == Ok(doc + [SectionV(name, [])])
    ensures FindSection(doc + [SectionV(name, [])], query) ==
      match FindSection(doc, query)
      case Some(k) => Some(k)
      case None => if name == query then Some(|doc|) else None
  {
    FindSectionAppend(doc, SectionV(name, []), query);
  }

  /** A pair line changes no section name, so no lookup answer. */
  lemma {:induction false} PairLookup(doc: seq<SectionV>, k: string, v: string, n: int, query: string)
    requires doc != []
    ensures BuildStep(doc, KeyValue(k, v), n).Ok?
    ensures FindSection(BuildStep(doc, KeyValue(k, v), n).value, query) == FindSection(doc, query)
  {
    var d := AppendPair(doc, KV(k, v));
    assert forall i :: 0 <= i < |d| ==> d[i].name == doc[i].name;
    FindSectionSpec(doc, query);
    FindSectionSpec(d, query);
    match FindSection(doc, query)
    case Some(i) => FindSectionFirst(d, query, i);
    case None =>
  }

  /** In build mode a pair before any header stops the run with the
      section-not-defined error for its line. */
  lemma {:induction false} PairBeforeHeader(input: string, pos: nat, n: int, st: State, callback: bool)
    requires pos < |input| && st.doc == []
    requires ReadLine(input, pos, n + 1).Ok? && ReadLine(input, pos, n + 1).value.KeyValue?
    ensures RunFrom(input, pos, n, st, true, callback) == Err(Error(SectionNotDefined, n + 1))
  {
  }

  /** A blank line or a comment line leaves the document, the handler's current
      section and the handler calls as they were. */
  lemma {:induction false} IgnoredLine(input: string, pos: nat, n: int, st: State, build: bool, callback: bool)
    requires pos < |input|
    requires var line := input[pos..ChunkEnd(input, pos)];
      var b := SkipBlanks(line, 0);
      && line[|line| - 1] == '\n' && b < |line| && (line[b] == '\n' || line[b] == '#')
    ensures RunFrom(input, pos, n, st, build, callback) == RunFrom(input, ChunkEnd(input, pos), n + 1, st, build, callback)
  {
  }

  /** A mode that is off leaves its part of the state as it was: with no
      handler nothing is reported, and with no base nothing is built. */
  lemma {:induction false} UnusedModes(input: string, pos: nat, n: int, st: State, build: bool, callback: bool)
    requires pos <= |input|
    ensures var r := RunFrom(input, pos, n, st, build, callback);
      && (r.Ok? && !callback ==> r.value.sectionName == st.sectionName && r.value.events == st.events)
      && (r.Ok? && !build ==> r.value.doc == st.doc)
    decreases |input| - pos
  {
    if pos < |input| {
      match ReadLine(input, pos, n + 1)
      case Err(_) =>
      case Ok(tok) =>
        match Step(st, tok, n + 1, build, callback)
        case Err(_) =>
        case Ok(st') => UnusedModes(input, ChunkEnd(input, pos), n + 1, st', build, callback);
    }
  }

  /** A handler call without its line number: the flag, the section and, for
      a pair, its key and value. */
  datatype Call = Call(flag: int, section: string, key: Option<string>, value: Option<string>)

  /** The handler calls of a run, without their line numbers. */
  function Calls(events: seq<Event>): (cs: seq<Call>)
    ensures |cs| == |events|
  {
    seq(|events|, i requires 0 <= i < |events| => Call(events[i].flag, events[i].section, events[i].key, events[i].value))
  }

  /** The calls that report a section: its header, then each of its pairs in order. */
  function SectionCalls(s: SectionV): (cs: seq<Call>)
    ensures |cs| == |s.pairs| + 1
  {
    [Call(FlagSection, s.name, None, None)]
      + seq(|s.pairs|, i requires 0 <= i < |s.pairs| => Call(FlagKeyValue, s.name, Some(s.pairs[i].key), Some(s.pairs[i].value)))
  }

  /** The calls that report a whole document, section after section. */
  function DocCalls(doc: seq<SectionV>): seq<Call>
    decreases |doc|
  {
    if doc == [] then [] else DocCalls(doc[..|doc| - 1]) + SectionCalls(doc[|doc| - 1])
  }

  /** In a run in both modes the handler has been told exactly what the
      document holds, and its current section is the document's last one. */
  predicate Reports(st: State)
  {
    && Calls(st.events) == DocCalls(st.doc)
    && (st.doc == [] <==> st.sectionName.None?)
    && (st.doc != [] ==> st.sectionName.value == st.doc[|st.doc| - 1].name)
  }

  /** One line keeps the handler's report in step with the document. */
  lemma {:induction false} StepReports(st: State, tok: Token, n: int)
    requires Reports(st)
    ensures Step(st, tok, n, true, true).Ok? ==> Reports(Step(st, tok, n, true, true).value)
  {
    match tok {
      case Ignore =>
      case Section(name) =>
        var d := st.doc + [SectionV(name, [])];
        assert d[..|d| - 1] == st.doc;
        var ev := Event(n, FlagSection, name, None, None);
        assert Calls(st.events + [ev]) == Calls(st.events) + [Call(FlagSection, name, None, None)];
      case KeyValue(k, v) =>
        if st.doc != [] {
          var d := AppendPair(st.doc, KV(k, v));
          var last, last' := st.doc[|st.doc| - 1], d[|d| - 1];
          assert d[..|d| - 1] == st.doc[..|st.doc| - 1];
          var c := Call(FlagKeyValue, last.name, Some(k), Some(v));
          assert SectionCalls(last') == SectionCalls(last) + [c];
          var ev := Event(n, FlagKeyValue, st.sectionName.value, Some(k), Some(v));
          assert Calls(st.events + [ev]) == Calls(st.events) + [c];
        }
    }
  }

  /** The run form of StepReports. */
  lemma {:induction false} RunReports(input: string, pos: nat, n: int, st: State)
    requires pos <= |input| && Reports(st)
    ensures RunFrom(input, pos, n, st, true, true).Ok? ==> Reports(RunFrom(input, pos, n, st, true, true).value)
    decreases |input| - pos
  {
    if pos < |input| {
      match ReadLine(input, pos, n + 1)
      case Err(_) =>
      case Ok(tok) =>
        StepReports(st, tok, n + 1);
        match Step(st, tok, n + 1, true, true)
        case Err(_) =>
        case Ok(st') => RunReports(input, ChunkEnd(input, pos), n + 1, st');
    }
  }

  /** On an input both accept, tini_parse_cb reports to its handler exactly the
      document tini_parse builds: each section's header, then its pairs, section
      after section in file order. */
  lemma {:induction false} HandlerSeesDocument(input: string)
    requires Run(input, true, false).Ok?
    ensures Run(input, false, true).Ok?
    ensures Calls(Run(input, false, true).value.events) == DocCalls(Run(input, true, false).value.doc)
  {
    ModesAgree(input);
    RunReports(input, 0, 0, Start);
  }

  // ---------------------------------------------------------------------
  // The C loop

  /** fgets(linebuf, LineSize, fp) with the stream at `pos`, on a non-empty
      rest of input: the chunk is copied to the front of the buffer. */
  method Fgets(linebuf: array<char>, input: string, pos: nat) returns (len: nat, next: nat)
    requires pos < |input| && linebuf.Length == LineSize
    modifies linebuf
    ensures next == ChunkEnd(input, pos)
    ensures len == next - pos && linebuf[..len] == input[pos..next]
  {
    len, next := 0, pos;
    while next < |input| && len < LineSize - 1
      invariant next == pos + len && next <= |input| && len <= LineSize - 1
      invariant linebuf[..len] == input[pos..next]
      invariant ChunkEnd(input, pos) == ChunkEndFrom(input, pos, next)
    {
      var c := input[next];
      linebuf[len] := c;
      len, next := len + 1, next + 1;
      assert linebuf[..len] == linebuf[..len - 1] + [c];
      if c == '\n' {
        return;
      }
    }
  }

  /** tini_parse_core with the file's contents as `input`; `build` stands for
      base0 != NULL and `callback` for handler != NULL. The C process exits on
      every error; here the error is the outcome. */
  method ParseCore(input: string, build: bool, callback: bool)
    returns (outcome: Outcome, base: Base?, events: seq<Event>)
    ensures build <==> base != null
    ensures Run(input, build, callback).Err? ==> outcome == Fail(Run(input, build, callback).error)
    ensures Run(input, build, callback).Ok? ==>
      && outcome == Pass
      && events == Run(input, build, callback).value.events
      && (base != null ==> base.Valid() && base.Doc() == Run(input, build, callback).value.doc)
  {
    var linebuf := new char[LineSize];
    if build {
      base := new Base();
    } else {
      base := null;
    }
    var section: Sect? := null;
    var sectionName: Option<string> := None;
    events := [];
    var pos, lineno := 0, 0;
    ghost var st := Start;
    while pos < |input|
      invariant pos <= |input|
      invariant RunFrom(input, pos, lineno, st, build, callback) == Run(input, build, callback)
      invariant st.sectionName == sectionName && st.events == events
      invariant build <==> base != null
      invariant base != null ==> fresh(base) && Tracks(base, section, st.doc)
      invariant section != null ==> fresh(section)
      decreases |input| - pos
    {
      lineno := lineno + 1;
      var r, next := NextLine(linebuf, input, pos, lineno);
      if r.Err? {
        outcome := Fail(r.error);
        return;
      }
      if build {
        var err;
        err, section := Build(base, section, st.doc, r.value, lineno);
        if err.Some? {
          outcome := Fail(err.value);
          return;
        }
      }
      if callback {
        match r.value {
          case Ignore =>
          case Section(name) =>
            sectionName := Some(name);
            events := events + [Event(lineno, FlagSection, name, None, None)];
          case KeyValue(k, v) =>
            if sectionName.None? {
              outcome := Fail(Error(SectionNotDefined, lineno));
              return;
            }
            events := events + [Event(lineno, FlagKeyValue, sectionName.value, Some(k), Some(v))];
        }
      }
      st := Step(st, r.value, lineno, build, callback).value;
      pos := next;
    }
    outcome := Pass;
  }

  /** One pass of the loop's head: fgets, the too-long check and
      tini_parse_one, with the texts the C code later copies with strdup. */
  method NextLine(linebuf: array<char>, input: string, pos: nat, lineno: int)
    returns (r: Result<Token>, next: nat)
    requires pos < |input| && linebuf.Length == LineSize
    modifies linebuf
    ensures next == ChunkEnd(input, pos)
    ensures r == ReadLine(input, pos, lineno)
  {
    var len;
    len, next := Fgets(linebuf, input, pos);
    if linebuf[len - 1] != '\n' {
      // line too long, or a last line with no newline
      return Err(Error(LineTooLong, lineno)), next;
    }
    var c := ParseOne(linebuf, len, lineno);
    if c.Err? {
      return Err(c.error), next;
    }
    // the texts the C code later copies with strdup or hands to the handler
    match c.value {
      case IgnoreAt =>
        r := Ok(Ignore);
      case SectionAt(lo, hi) =>
        PrefixSlice(linebuf, len, lo, hi);
        r := Ok(Section(linebuf[lo..hi]));
      case KeyValueAt(kl, kh, vl, vh) =>
        PrefixSlice(linebuf, len, kl, kh);
        PrefixSlice(linebuf, len, vl, vh);
        r := Ok(KeyValue(linebuf[kl..kh], linebuf[vl..vh]));
    }
  }

  /** A slice of the buffer within its first n characters is that slice of
      the line those characters hold. */
  lemma {:induction false} PrefixSlice(a: array<char>, n: nat, lo: nat, hi: nat)
    requires lo <= hi <= n <= a.Length
    ensures a[lo..hi] == a[..n][lo..hi]
  {
    assert forall m :: 0 <= m < hi - lo ==> a[lo..hi][m] == a[lo + m] == a[..n][lo..hi][m];
  }

  /** The document `base` holds the value `doc`, and `section`, the C code's
      pointer to the last section opened, is null before the first header and
      the last section after it. */
  ghost predicate Tracks(base: Base, section: Sect?, doc: seq<SectionV>)
    reads base, base.sect
  {
    && base.Valid() && base.Doc() == doc
    && (section == null <==> base.sect == [])
    && (section != null ==> section == base.sect[|base.sect| - 1])
  }

  /** The build-mode part of the loop's dispatch: tini_new_sect for a header,
      tini_new_kv on the last section for a pair. */
  method Build(base: Base, section: Sect?, ghost doc: seq<SectionV>, tok: Token, lineno: int)
    returns (err: Option<Error>, last: Sect?)
    requires Tracks(base, section, doc)
    modifies base, section
    ensures BuildStep(doc, tok, lineno).Err? ==> err == Some(BuildStep(doc, tok, lineno).error)
    ensures BuildStep(doc, tok, lineno).Ok? ==>
      && err == None && Tracks(base, last, BuildStep(doc, tok, lineno).value)
      && (last != null ==> last == section || fresh(last))
  {
    last := section;
    match tok {
      case Ignore =>
      case Section(name) =>
        last := base.NewSect(name);
      case KeyValue(k, v) =>
        if section == null {
          return Some(Error(SectionNotDefined, lineno)), last;
        }
        AddPair(base, section, k, v);
    }
    err := None;
  }

  /** tini_new_kv on the last section of a document: the document gains the
      pair at the end of its last section. */
  method AddPair(base: Base, section: Sect, key: string, value: string)
    requires base.Valid() && base.sect != [] && section == base.sect[|base.sect| - 1]
    modifies section
    ensures base.Valid() && base.sect == old(base.sect)
    ensures base.Doc() == AppendPair(old(base.Doc()), KV(key, value))
  {
    ghost var doc := base.Doc();
    var _ := section.NewKv(key, value);
    forall i | 0 <= i < |base.sect| - 1
      ensures base.Doc()[i] == doc[i]
    {
      assert base.sect[i] != section;
    }
  }

  /** tini_parse: build mode when `base0` is given (base0 != NULL); with a
      NULL base0 the loop runs in neither mode, only reading and tokenizing. */
  method Parse(input: string, base0: bool) returns (outcome: Outcome, base: Base?)
    ensures base0 <==> base != null
    ensures Run(input, base0, false).Err? ==> outcome == Fail(Run(input, base0, false).error)
    ensures Run(input, base0, false).Ok? ==>
      outcome == Pass && (base != null ==> base.Valid() && base.Doc() == Run(input, base0, false).value.doc)
  {
    var events;
    outcome, base, events := ParseCore(input, base0, false);
  }

  /** tini_parse_cb: callback mode when `handler` is given (handler != NULL);
      with a NULL handler the loop runs in neither mode and calls nothing. */
  method ParseCb(input: string, handler: bool) returns (outcome: Outcome, events: seq<Event>)
    ensures Run(input, false, handler).Err? ==> outcome == Fail(Run(input, false, handler).error)
    ensures Run(input, false, handler).Ok? ==>
      outcome == Pass && events == Run(input, false, handler).value.events
    ensures !handler && outcome == Pass ==> events == []
  {
    var base;
    outcome, base, events := ParseCore(input, false, handler);
    UnusedModes(input, 0, 0, Start, false, handler);
  }
}
