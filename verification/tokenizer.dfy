/**
 * The line tokenizer (tini_parse_one): classifies one newline-terminated line
 * as ignored, a section header or a key/value pair.
 *
 * The C function answers with pointers into its line buffer (s, k, v) and ends
 * each text by writing a '\0' into the buffer. Scan is its specification in
 * those terms: positions into the line, computed the way the C code moves its
 * pointer. ParseOne is the pointer-walking code over the buffer, proved equal to
 * Scan. Classify reads the texts at those positions, and the lemmas state the
 * format's rules in terms of the line itself.
 */
module Tokenizer {
  import opened TiniTypes
  import opened Text

  /** The classification of `line` (the contents of the C string, without its
      terminating NUL), for the line numbered `lineno`, as positions in the line. */
  function Scan(line: string, lineno: int): (r: Result<Cut>)
    ensures r.Ok? ==> Within(r.value, |line|)
    ensures r.Err? ==> r.error.lineno == lineno
  {
    var b := SkipBlanks(line, 0);
    if b == |line| then Err(Error(NoEol, lineno))
    else if line[b] == '\n' || line[b] == '#' then Ok(IgnoreAt)
    else if line[b] == '[' && IndexOf(line, ']', b + 1).Some? then
      // a '[' opens a section only when some ']' follows it
      Ok(SectionAt(b + 1, IndexOf(line, ']', b + 1).value))
    else
      // an unclosed '[' leaves the key scan at the end of the string
      ScanPair(line, if line[b] == '[' then |line| else b, lineno)
  }

  /** The key/value split of the line from index `k` on: the key runs up to the
      first separator; the value starts after it and ends where the tail scan,
      run back from the terminator, stops. */
  function ScanPair(line: string, k: nat, lineno: int): (r: Result<Cut>)
    requires k <= |line|
    ensures r.Ok? ==> r.value.KeyValueAt? && r.value.keyStart == k && Within(r.value, |line|)
    ensures r.Err? ==> r.error.lineno == lineno
  {
    match FindSep(line, k)
    case None => Err(Error(NoSeparator, lineno))
    case Some(v) =>
      if v == k then Err(Error(SeparatorAtStart, lineno))
      else
        // when only blanks follow the separator the scan stops on its '=' and
        // the value is empty
        var e := TrimEnd(line, |line|);
        Ok(KeyValueAt(k, v, v + |Sep|, if e < v + |Sep| then v + |Sep| else e))
  }

  /** The texts a cut delimits in the line. */
  function TokenOf(line: string, c: Cut): (t: Token)
    requires Within(c, |line|)
    ensures Flag(t) == FlagIgnore <==> c.IgnoreAt?
    ensures Flag(t) == FlagSection <==> c.SectionAt?
  {
    match c
    case IgnoreAt => Ignore
    case SectionAt(lo, hi) => Section(line[lo..hi])
    case KeyValueAt(kl, kh, vl, vh) => KeyValue(line[kl..kh], line[vl..vh])
  }

  /** The token of a line, with the texts it names. */
  function Classify(line: string, lineno: int): Result<Token>
  {
    match Scan(line, lineno)
    case Err(e) => Err(e)
    case Ok(c) => Ok(TokenOf(line, c))
  }

  // ---------------------------------------------------------------------
  // The C code over the line buffer

  /** The head-skipping loop: index of the first non-blank character of the buffer. */
  method SkipHead(linebuf: array<char>, len: nat) returns (bp: nat)
    requires len <= linebuf.Length
    ensures bp == SkipBlanks(linebuf[..len], 0)
  {
    bp := 0;
    while bp < len && (linebuf[bp] == ' ' || linebuf[bp] == '\t')
      invariant bp <= len
      invariant SkipBlanks(linebuf[..len], 0) == SkipBlanks(linebuf[..len], bp)
    {
      bp := bp + 1;
    }
  }

  /** The section-name loop: index of the first ']' at or after `s`. */
  method ScanClose(linebuf: array<char>, len: nat, s: nat) returns (r: Option<nat>)
    requires s <= len <= linebuf.Length
    ensures r == IndexOf(linebuf[..len], ']', s)
  {
    var bp := s;
    while bp < len
      invariant s <= bp <= len
      invariant IndexOf(linebuf[..len], ']', s) == IndexOf(linebuf[..len], ']', bp)
    {
      if linebuf[bp] == ']' {
        return Some(bp);
      }
      bp := bp + 1;
    }
    return None;
  }

  /** strstr(linebuf + k, " = "): index of the first separator at or after `k`. */
  method ScanSep(linebuf: array<char>, len: nat, k: nat) returns (r: Option<nat>)
    requires k <= len <= linebuf.Length
    ensures r == FindSep(linebuf[..len], k)
  {
    ghost var line := linebuf[..len];
    var v := k;
    while v + 3 <= len && !(linebuf[v] == ' ' && linebuf[v + 1] == '=' && linebuf[v + 2] == ' ')
      invariant k <= v <= len
      invariant FindSep(line, k) == FindSep(line, v)
    {
      v := v + 1;
    }
    if v + 3 > len {
      return None;
    }
    return Some(v);
  }

  /** The tail-trimming loop and the empty-value test: where the value that
      starts at `vs`, right after a separator, ends. */
  method TrimTail(linebuf: array<char>, len: nat, vs: nat) returns (ve: nat)
    requires 3 <= vs <= len <= linebuf.Length
    requires SepAt(linebuf[..len], vs - 3)
    ensures var e := TrimEnd(linebuf[..len], len);
      ve == if e < vs then vs else e
  {
    ghost var line := linebuf[..len];
    // bp starts on the string's terminator and walks back over blanks;
    // the '=' of the separator stops it at the latest
    var bp := len;
    while bp == len || IsTrailing(linebuf[bp])
      invariant vs - 2 <= bp <= len
      invariant TrimEnd(line, len) == TrimEnd(line, if bp == len then len else bp + 1)
      decreases bp
    {
      bp := bp - 1;
    }
    if bp + 2 == vs {
      // found a value of null
      ve := vs;
    } else {
      ve := bp + 1;
    }
  }

  /** The key/value part of tini_parse_one: the key starts at `k`. */
  method SplitPair(linebuf: array<char>, len: nat, k: nat, lineno: int) returns (r: Result<Cut>)
    requires k <= len <= linebuf.Length
    ensures r == ScanPair(linebuf[..len], k, lineno)
  {
    var v := ScanSep(linebuf, len, k);
    if v.None? {
      return Err(Error(NoSeparator, lineno));
    }
    if v.value == k {
      return Err(Error(SeparatorAtStart, lineno));
    }
    var ve := TrimTail(linebuf, len, v.value + 3);
    return Ok(KeyValueAt(k, v.value, v.value + 3, ve));
  }

  /** tini_parse_one over the first `len` characters of the line buffer. */
  method ParseOne(linebuf: array<char>, len: nat, lineno: int) returns (r: Result<Cut>)
    requires len <= linebuf.Length
    ensures r == Scan(linebuf[..len], lineno)
  {
    var bp := SkipHead(linebuf, len);
    if bp == len {
      return Err(Error(NoEol, lineno));
    }
    if linebuf[bp] == '\n' || linebuf[bp] == '#' {
      return Ok(IgnoreAt);
    }
    if linebuf[bp] == '[' {
      var close := ScanClose(linebuf, len, bp + 1);
      if close.Some? {
        return Ok(SectionAt(bp + 1, close.value));
      }
      // no ']': the key scan starts at the end of the string
      bp := len;
    }
    r := SplitPair(linebuf, len, bp, lineno);
  }

  // ---------------------------------------------------------------------
  // The format's rules, as positions

  /** A line is ignored exactly when its first non-blank character is the
      newline or '#'. */
  lemma {:induction false} ScanIgnore(line: string, n: int)
    ensures Scan(line, n) == Ok(IgnoreAt) <==>
      var b := SkipBlanks(line, 0); b < |line| && (line[b] == '\n' || line[b] == '#')
  {
  }

  /** The positions of a header line: its first non-blank character is '[',
      and the name runs from the next character up to the first ']' after it. */
  predicate SectionAtPos(line: string, lo: nat, hi: nat)
  {
    var b := SkipBlanks(line, 0);
    && b < |line| && line[b] == '[' && lo == b + 1
    && lo <= hi < |line| && line[hi] == ']'
    && forall m :: lo <= m < hi ==> line[m] != ']'
  }

  /** Every header cut has the positions SectionAtPos describes. */
  lemma {:induction false} ScanSectionSound(line: string, n: int, lo: nat, hi: nat)
    requires Scan(line, n) == Ok(SectionAt(lo, hi))
    ensures SectionAtPos(line, lo, hi)
  {
    IndexOfSpec(line, ']', lo);
  }

  /** Conversely, positions as SectionAtPos describes them are the line's cut. */
  lemma {:induction false} ScanSectionComplete(line: string, n: int, lo: nat, hi: nat)
    requires SectionAtPos(line, lo, hi)
    ensures Scan(line, n) == Ok(SectionAt(lo, hi))
  {
    IndexOfFirst(line, ']', lo, hi);
  }

  /** The positions of a key/value line: the key starts at the first non-blank
      character, which neither ends, comments nor opens the line, and runs up to
      the first separator; the value starts right after the separator and ends
      where only trailing characters follow, or is empty. */
  predicate PairAt(line: string, kl: nat, kh: nat, vl: nat, vh: nat)
  {
    var b := SkipBlanks(line, 0);
    && b < |line| && line[b] != '\n' && line[b] != '#' && line[b] != '['
    && kl == b && kl < kh && SepAt(line, kh)
    && (forall j :: kl <= j < kh ==> !SepAt(line, j))
    && vl == kh + |Sep| && vl <= vh <= |line|
    && (forall m :: vh <= m < |line| ==> IsTrailing(line[m]))
    && (vh == vl || !IsTrailing(line[vh - 1]))
  }

  /** Every key/value cut has the positions PairAt describes. */
  lemma {:induction false} ScanPairSound(line: string, n: int, kl: nat, kh: nat, vl: nat, vh: nat)
    requires Scan(line, n) == Ok(KeyValueAt(kl, kh, vl, vh))
    ensures PairAt(line, kl, kh, vl, vh)
  {
    FindSepSpec(line, kl);
    TrimEndSpec(line, |line|);
    assert line[kh + 1] == Sep[1];
  }

  /** Conversely, positions as PairAt describes them are the line's cut. */
  lemma {:induction false} ScanPairComplete(line: string, n: int, kl: nat, kh: nat, vl: nat, vh: nat)
    requires PairAt(line, kl, kh, vl, vh)
    ensures Scan(line, n) == Ok(KeyValueAt(kl, kh, vl, vh))
  {
    FindSepFirst(line, kl, kh);
    assert line[kh + 1] == Sep[1] && line[kh + 2] == Sep[2];
    if vh == vl {
      TrimEndUnique(line, |line|, kh + 2);
    } else {
      TrimEndUnique(line, |line|, vh);
    }
  }

  /** A '[' never closed by a ']' leaves nothing to split: the line is a
      missing-separator error. */
  lemma {:induction false} UnclosedSection(line: string, n: int)
    requires var b := SkipBlanks(line, 0);
      b < |line| && line[b] == '[' && forall m :: b < m < |line| ==> line[m] != ']'
    ensures Scan(line, n) == Err(Error(NoSeparator, n))
  {
  }

  /** A line that is neither ignored nor a header and holds no separator after
      its blanks is a missing-separator error carrying its line number. */
  lemma {:induction false} MissingSeparator(line: string, n: int)
    requires var b := SkipBlanks(line, 0);
      && b < |line| && line[b] != '\n' && line[b] != '#' && line[b] != '['
      && forall j :: b <= j ==> !SepAt(line, j)
    ensures Scan(line, n) == Err(Error(NoSeparator, n))
  {
  }

  /** On a newline-terminated line, which is all the driver passes on, the only
      error the tokenizer can report is the missing separator: the end-of-string
      and separator-at-start errors cannot happen. */
  lemma {:induction false} TerminatedLineErrors(line: string, n: int)
    requires line != [] && line[|line| - 1] == '\n'
    ensures Scan(line, n).Err? ==> Scan(line, n).error == Error(NoSeparator, n)
  {
    SkipBlanksSpec(line, 0);
  }

  // ---------------------------------------------------------------------
  // The format's rules, as texts

  /** A line yields no token exactly when its first non-blank character is the
      newline or '#'. */
  lemma {:induction false} ClassifyIgnore(line: string, n: int)
    ensures Classify(line, n) == Ok(Ignore) <==>
      var b := SkipBlanks(line, 0); b < |line| && (line[b] == '\n' || line[b] == '#')
  {
  }

  /** Skipping the head of `blanks + rest` stops right after the blanks. */
  lemma {:induction false} SkipOver(blanks: string, rest: string)
    requires AllBlank(blanks) && (rest == [] || !IsBlank(rest[0]))
    ensures SkipBlanks(blanks + rest, 0) == |blanks|
  {
    var line := blanks + rest;
    assert forall m :: 0 <= m < |blanks| ==> line[m] == blanks[m];
    assert rest != [] ==> line[|blanks|] == rest[0];
    SkipBlanksUnique(line, 0, |blanks|);
  }

  /** A section header's name runs from just after the first non-blank '['
      up to the first ']', and holds no ']' itself. */
  lemma {:induction false} SectionSound(line: string, n: int, name: string)
    requires Classify(line, n) == Ok(Section(name))
    ensures var b := SkipBlanks(line, 0);
      && b + |name| + 2 <= |line|
      && line[b] == '['
      && line[b + 1..b + 1 + |name|] == name
      && line[b + 1 + |name|] == ']'
      && ']' !in name
  {
    var c := Scan(line, n).value;
    ScanSectionSound(line, n, c.nameStart, c.nameEnd);
    forall m | 0 <= m < |name| ensures name[m] != ']' {
      assert name[m] == line[c.nameStart + m];
    }
  }

  /** Blanks, '[', a name without ']', ']' and anything after make a section
      header with that name. */
  lemma {:induction false} SectionLine(blanks: string, name: string, rest: string, n: int)
    requires AllBlank(blanks) && ']' !in name
    ensures Classify(blanks + "[" + name + "]" + rest, n) == Ok(Section(name))
  {
    var line := blanks + "[" + name + "]" + rest;
    assert line == blanks + ("[" + name + "]" + rest);
    SkipOver(blanks, "[" + name + "]" + rest);
    var lo, hi := |blanks| + 1, |blanks| + 1 + |name|;
    assert line[lo - 1] == '[' && line[hi] == ']';
    assert forall m :: lo <= m < hi ==> line[m] == name[m - lo];
    ScanSectionComplete(line, n, lo, hi);
    assert line[lo..hi] == name;
  }

  /** A key/value line is split at the first separator after its blanks: the key
      is what precedes it and starts with a character that neither ends, comments
      nor opens a section, and the value is what follows it, trimmed. */
  lemma {:induction false} ClassifyKeyValue(line: string, n: int, key: string, value: string)
    requires Classify(line, n) == Ok(KeyValue(key, value))
    ensures var b := SkipBlanks(line, 0);
      && b + |key| + |Sep| <= |line|
      && line[b..b + |key|] == key
      && SepAt(line, b + |key|)
      && (forall j :: b <= j < b + |key| ==> !SepAt(line, j))
      && value == TrimRight(line[b + |key| + |Sep|..])
      && key != [] && !IsBlank(key[0]) && key[0] != '\n' && key[0] != '#' && key[0] != '['
  {
    var c := Scan(line, n).value;
    PairTexts(line, n, c.keyStart, c.keyEnd, c.valueStart, c.valueEnd);
  }

  /** The texts at the positions of a key/value cut. */
  lemma {:induction false} PairTexts(line: string, n: int, kl: nat, kh: nat, vl: nat, vh: nat)
    requires Scan(line, n) == Ok(KeyValueAt(kl, kh, vl, vh))
    ensures var key := line[kl..kh];
      && kl == SkipBlanks(line, 0)
      && kl + |key| + |Sep| == vl <= |line|
      && SepAt(line, kh)
      && (forall j :: kl <= j < kh ==> !SepAt(line, j))
      && line[vl..vh] == TrimRight(line[vl..])
      && key != [] && !IsBlank(key[0]) && key[0] != '\n' && key[0] != '#' && key[0] != '['
  {
    ScanPairSound(line, n, kl, kh, vl, vh);
    TrimRightAt(line, vl, vh);
  }

  /** Conversely, blanks, a key, the separator and a raw value form a key/value
      line whose key is that key and whose value is the raw value trimmed. */
  lemma {:induction false} KeyValueLine(blanks: string, key: string, raw: string, n: int)
    requires AllBlank(blanks)
    requires key != [] && !IsBlank(key[0]) && key[0] != '\n' && key[0] != '#' && key[0] != '['
    requires NoSepBefore(key + Sep, |key|)
    ensures Classify(blanks + key + Sep + raw, n) == Ok(KeyValue(key, TrimRight(raw)))
  {
    var line := blanks + key + Sep + raw;
    var kl, kh := |blanks|, |blanks| + |key|;
    var vl := kh + |Sep|;
    var vh := vl + |TrimRight(raw)|;
    PartsPositions(line, blanks, key, raw);
    ClassifyPair(line, n, kl, kh, vl, vh, key, TrimRight(raw));
  }

  /** The token of a line with the positions of a key/value line holds the
      texts at those positions. */
  lemma {:induction false} ClassifyPair(line: string, n: int, kl: nat, kh: nat, vl: nat, vh: nat, key: string, value: string)
    requires PairAt(line, kl, kh, vl, vh) && key == line[kl..kh] && value == line[vl..vh]
    ensures Classify(line, n) == Ok(KeyValue(key, value))
  {
    ScanPairComplete(line, n, kl, kh, vl, vh);
  }

  /** Where the parts of a key/value line lie in it. */
  lemma {:induction false} PartsPositions(line: string, blanks: string, key: string, raw: string)
    requires line == blanks + key + Sep + raw
    requires AllBlank(blanks)
    requires key != [] && !IsBlank(key[0]) && key[0] != '\n' && key[0] != '#' && key[0] != '['
    requires NoSepBefore(key + Sep, |key|)
    ensures var kl, kh := |blanks|, |blanks| + |key|;
      var vl := kh + |Sep|;
      var vh := vl + |TrimRight(raw)|;
      && PairAt(line, kl, kh, vl, vh)
      && line[kl..kh] == key && line[vl..vh] == TrimRight(raw)
  {
    KeyPositions(line, blanks, key, raw);
    ValuePositions(line, blanks + key + Sep, raw);
  }

  /** The key of a key/value line starts after the blanks and ends at the first
      separator. */
  lemma {:induction false} KeyPositions(line: string, blanks: string, key: string, raw: string)
    requires line == blanks + key + Sep + raw
    requires AllBlank(blanks) && key != [] && !IsBlank(key[0])
    requires NoSepBefore(key + Sep, |key|)
    ensures var kl, kh := |blanks|, |blanks| + |key|;
      && SkipBlanks(line, 0) == kl && line[kl] == key[0]
      && SepAt(line, kh) && (forall j :: kl <= j < kh ==> !SepAt(line, j))
      && line[kl..kh] == key
  {
    var kl, kh := |blanks|, |blanks| + |key|;
    assert line == blanks + (key + Sep + raw);
    SkipOver(blanks, key + Sep + raw);
    SepAtShift(blanks, key + Sep, raw, |key|);
    forall j | kl <= j < kh ensures !SepAt(line, j) {
      SepAtShift(blanks, key + Sep, raw, j - kl);
    }
    assert line[kl..kh] == key;
  }

  /** The value of a line ending in `raw` ends where TrimRight cuts raw. */
  lemma {:induction false} ValuePositions(line: string, head: string, raw: string)
    requires line == head + raw
    ensures var vl := |head|;
      var vh := vl + |TrimRight(raw)|;
      && vh <= |line|
      && (forall m :: vh <= m < |line| ==> IsTrailing(line[m]))
      && (vh == vl || !IsTrailing(line[vh - 1]))
      && line[vl..vh] == TrimRight(raw)
  {
    TrimRightSpec(raw);
    var vl := |head|;
    assert forall m :: vl <= m < |line| ==> line[m] == raw[m - vl];
    assert line[vl..vl + |TrimRight(raw)|] == TrimRight(raw);
  }

  /** Whether a separator starts at j depends only on the three characters there. */
  lemma {:induction false} SepAtShift(p: string, s: string, t: string, j: int)
    requires 0 <= j && j + |Sep| <= |s|
    ensures SepAt(p + s + t, |p| + j) <==> SepAt(s, j)
  {
  }
}
