/**
 * Lines of the format worked through the tokenizer: the rules of the format
 * (tini.c:15-28) on concrete lines, derived from the general lemmas.
 */
module Scenarios {
  import opened TiniTypes
  import opened Text
  import opened Tokenizer

  /** "key =value": omitting the space after '=' leaves the line without a separator. */
  lemma {:induction false} OmittedSpace(n: int)
    ensures Classify("key =value\n", n) == Err(Error(NoSeparator, n))
  {
  }

  /** The value keeps the spaces that follow the separator and loses the trailing ones. */
  lemma {:induction false} LeadingSpacesKept(n: int)
    ensures Classify("k =   v \n", n) == Ok(KeyValue("k", "  v"))
  {
    assert "k =   v \n" == [] + "k" + Sep + "  v \n";
    assert "  v \n"[..3] == "  v";
    TrimRightUnique("  v \n", 3);
    assert NoSepBefore("k" + Sep, 1);
    KeyValueLine([], "k", "  v \n", n);
  }

  /** A value made only of blanks is the empty value, not an error. */
  lemma {:induction false} BlankValue(n: int)
    ensures Classify("key =  \t\n", n) == Ok(KeyValue("key", ""))
  {
    assert "key =  \t\n" == [] + "key" + Sep + " \t\n";
    TrimRightUnique(" \t\n", 0);
    KeyValueLine([], "key", " \t\n", n);
  }

  /** The key runs up to the separator, a space before it included. */
  lemma {:induction false} KeyKeepsSpace(n: int)
    ensures Classify("key  = v\n", n) == Ok(KeyValue("key ", "v"))
  {
    assert "key  = v\n" == [] + "key " + Sep + "v\n";
    assert !SepAt("key " + Sep, 2);
    assert "v\n"[..1] == "v";
    TrimRightUnique("v\n", 1);
    assert NoSepBefore("key " + Sep, 4);
    KeyValueLine([], "key ", "v\n", n);
  }

  /** A '[' that no ']' closes is a missing-separator error. */
  lemma {:induction false} UnclosedHeader(n: int)
    ensures Classify(" [a\n", n) == Err(Error(NoSeparator, n))
  {
  }

  /** A header's name is the text between '[' and the first ']'; what follows is ignored. */
  lemma {:induction false} Header(n: int)
    ensures Classify("\t[a]x\n", n) == Ok(Section("a"))
  {
    assert "\t[a]x\n" == "\t" + "[" + "a" + "]" + "x\n";
    SectionLine("\t", "a", "x\n", n);
  }
}
