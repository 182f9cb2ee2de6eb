/**
 * Constants and record layouts of the tini configuration format (tini.h),
 * plus the result and error types that replace the C code's fatal err() calls.
 */
module TiniTypes {

  /** Size of the fgets line buffer; an accepted line holds at most LineSize - 1
      characters, its terminating newline included. */
  const LineSize: nat := 512

  /** The three classifications a line can receive from the tokenizer. */
  const FlagIgnore: int := 0
  const FlagSection: int := 1
  const FlagKeyValue: int := 2

  datatype Option<+T> = None | Some(value: T)

  /** One key/value pair (struct tini_kv): owned copies of the parsed texts. */
  datatype KV = KV(key: string, value: string)

  /** The value of one section (struct tini_sect): its name and its pairs in order. */
  datatype SectionV = SectionV(name: string, pairs: seq<KV>)

  /** What the tokenizer reports for one line, with the texts it extracted. */
  datatype Token = Ignore | Section(name: string) | KeyValue(key: string, value: string)

  /** What the tokenizer returns for one line as positions in the line buffer:
      where the section name, key and value start (the C code's s, k and v
      pointers) and where the '\0' it writes ends each of them. */
  datatype Cut =
    | IgnoreAt
    | SectionAt(nameStart: nat, nameEnd: nat)
    | KeyValueAt(keyStart: nat, keyEnd: nat, valueStart: nat, valueEnd: nat)

  /** The positions of a cut lie in order within a line of length n. */
  predicate Within(c: Cut, n: nat)
  {
    match c
    case IgnoreAt => true
    case SectionAt(lo, hi) => lo <= hi <= n
    case KeyValueAt(kl, kh, vl, vh) => kl <= kh <= vl <= vh <= n
  }

  /** The TINI_FLAG_* code the C tokenizer returns for a token. */
  function Flag(t: Token): (f: int)
    ensures f == FlagIgnore <==> t.Ignore?
    ensures f == FlagSection <==> t.Section?
    ensures f == FlagKeyValue <==> t.KeyValue?
  {
    match t
    case Ignore => FlagIgnore
    case Section(_) => FlagSection
    case KeyValue(_, _) => FlagKeyValue
  }

  /** Every fatal condition of the parser, each of which terminates the C process. */
  datatype ErrorKind =
    | NoEol              // the tokenizer met the string's end before any non-blank
    | SeparatorAtStart   // the separator sits where the key should begin
    | NoSeparator        // a line that is neither ignored nor a section holds no " = "
    | LineTooLong        // an fgets chunk does not end in a newline
    | SectionNotDefined  // a key/value line precedes every section header

  datatype Error = Error(kind: ErrorKind, lineno: int)

  datatype Result<+T> = Ok(value: T) | Err(error: Error)

  /** Outcome of a whole parse: the C function returns 0, or the process exits. */
  datatype Outcome = Pass | Fail(error: Error)
}
