/**
 * The parsed document (struct tini_base and struct tini_sect of tini.h) and the
 * operations tini.c performs on it: creating the document, appending a
 * section, appending a pair to a section, looking a section up by name and
 * clearing the document.
 *
 * The C structures hold a counter next to a growable array of pointers; here
 * each array is a sequence field and the counter a separate field, and Valid()
 * is the invariant tying the two together.
 */
module Store {
  import opened TiniTypes

  // ---------------------------------------------------------------------
  // Lookup as a function of the document's value

  /** The index of the first section at or after i whose name is `name`. */
  function FindFrom(doc: seq<SectionV>, name: string, i: nat): (r: Option<nat>)
    ensures r.Some? ==> i <= r.value < |doc| && doc[r.value].name == name
    decreases |doc| - i
  {
    if i >= |doc| then None
    else if doc[i].name == name then Some(i)
    else FindFrom(doc, name, i + 1)
  }

  /** The index of the first section named `name`, in insertion order. */
  function FindSection(doc: seq<SectionV>, name: string): (r: Option<nat>)
    ensures r.Some? ==> r.value < |doc| && doc[r.value].name == name
  {
    FindFrom(doc, name, 0)
  }

  /** FindFrom finds a section of that name at or after i, before which, from
      i on, no section has that name; or it finds none because none from i on
      has that name. */
  lemma {:induction false} FindFromSpec(doc: seq<SectionV>, name: string, i: nat)
    ensures var r := FindFrom(doc, name, i);
      && (r.Some? ==> i <= r.value < |doc| && doc[r.value].name == name
                      && forall j :: i <= j < r.value ==> doc[j].name != name)
      && (r.None? ==> forall j :: i <= j < |doc| ==> doc[j].name != name)
    decreases |doc| - i
  {
    if i < |doc| && doc[i].name != name {
      FindFromSpec(doc, name, i + 1);
    }
  }

  /** tini_get_sect answers with the first section whose name equals the query
      exactly, or with nothing when no section has that name. */
  lemma {:induction false} FindSectionSpec(doc: seq<SectionV>, name: string)
    ensures var r := FindSection(doc, name);
      && (r.Some? ==> r.value < |doc| && doc[r.value].name == name
                      && forall j :: 0 <= j < r.value ==> doc[j].name != name)
      && (r.None? ==> forall j :: 0 <= j < |doc| ==> doc[j].name != name)
  {
    FindFromSpec(doc, name, 0);
  }

  /** Conversely, the first index holding the name is what the lookup finds. */
  lemma {:induction false} FindSectionFirst(doc: seq<SectionV>, name: string, k: nat)
    requires k < |doc| && doc[k].name == name
    requires forall j :: 0 <= j < k ==> doc[j].name != name
    ensures FindSection(doc, name) == Some(k)
  {
    FindSectionSpec(doc, name);
  }

  /** Appending a section never changes an earlier answer: a second section of
      the same name is never found, and a new name is found at the end. */
  lemma {:induction false} FindSectionAppend(doc: seq<SectionV>, s: SectionV, name: string)
    ensures FindSection(doc + [s], name) ==
      match FindSection(doc, name)
      case Some(k) => Some(k)
      case None => if s.name == name then Some(|doc|) else None
  {
    var doc' := doc + [s];
    FindSectionSpec(doc, name);
    FindSectionSpec(doc', name);
    match FindSection(doc, name)
    case Some(k) =>
      FindSectionFirst(doc', name, k);
    case None =>
      if s.name == name {
        FindSectionFirst(doc', name, |doc|);
      } else {
        assert forall j :: 0 <= j < |doc'| ==> doc'[j].name != name by {
          forall j | 0 <= j < |doc'| ensures doc'[j].name != name {
            if j < |doc| { assert doc'[j] == doc[j]; }
          }
        }
      }
  }

  /** The empty document holds no section of any name. */
  lemma {:induction false} FindSectionEmpty(name: string)
    ensures FindSection([], name) == None
  {
  }

  // ---------------------------------------------------------------------
  // The mutable structures

  /** struct tini_sect: a section's name, its pair count and its pairs. */
  class Sect {
    var name: string
    var nKv: int
    var kv: seq<KV>

    /** n_kv always counts the entries of kv. */
    ghost predicate Valid()
      reads this
    {
      nKv == |kv|
    }

    /** The section as a value. */
    function View(): SectionV
      reads this
    {
      SectionV(name, kv)
    }

    /** A section as tini_new_sect fills it in: a copy of the name and no pairs. */
    constructor (name: string)
      ensures this.name == name && nKv == 0 && kv == []
      ensures Valid() && View() == SectionV(name, [])
    {
      this.name := name;
      nKv := 0;
      kv := [];
    }

    /** tini_new_kv: the pair count grows by one and a copy of the pair goes
        last; the name and the earlier pairs stay as they were. */
    method NewKv(key: string, value: string) returns (entry: KV)
      requires Valid()
      modifies this
      ensures Valid()
      ensures name == old(name)
      ensures nKv == old(nKv) + 1
      ensures kv == old(kv) + [KV(key, value)]
      ensures entry == kv[|kv| - 1] && entry.key == key && entry.value == value
      ensures View() == SectionV(old(name), old(kv) + [KV(key, value)])
    {
      var n := nKv + 1;
      kv := kv + [KV(key, value)];
      entry := kv[n - 1];
      nKv := n;
    }
  }

  /** struct tini_base: the section count and the sections in the order their
      headers appeared. */
  class Base {
    var nSect: int
    var sect: seq<Sect>

    /** n_sect always counts the entries of sect, every section keeps its own
        count right, and no section is listed twice. */
    ghost predicate Valid()
      reads this, sect
    {
      && nSect == |sect|
      && (forall i :: 0 <= i < |sect| ==> sect[i].Valid())
      && (forall i, j :: 0 <= i < j < |sect| ==> sect[i] != sect[j])
    }

    /** The document as a value: each section's name and pairs, in order. */
    function Doc(): seq<SectionV>
      reads this, sect
    {
      var ss := sect;
      seq(|ss|, i requires 0 <= i < |ss| reads ss => ss[i].View())
    }

    /** tini_new: a zeroed document, holding no section. */
    constructor ()
      ensures nSect == 0 && sect == []
      ensures Valid() && Doc() == []
      ensures forall name :: FindSection(Doc(), name) == None
    {
      nSect := 0;
      sect := [];
    }

    /** tini_new_sect: the section count grows by one and a new, empty section
        holding a copy of the name goes last; the earlier sections stay. */
    method NewSect(name: string) returns (s: Sect)
      requires Valid()
      modifies this
      ensures Valid()
      ensures fresh(s)
      ensures nSect == old(nSect) + 1
      ensures sect == old(sect) + [s]
      ensures s.name == name && s.kv == []
      ensures Doc() == old(Doc()) + [SectionV(name, [])]
    {
      var n := nSect + 1;
      s := new Sect(name);
      sect := sect + [s];
      nSect := n;
      assert Doc()[n - 1] == SectionV(name, []);
      assert forall i :: 0 <= i < n - 1 ==> Doc()[i] == old(Doc())[i];
    }

    /** tini_get_sect: the first section whose name equals the query, found
        by a linear scan, or null when none has that name. */
    method GetSect(name: string) returns (s: Sect?)
      requires Valid()
      ensures FindSection(Doc(), name).None? ==> s == null
      ensures FindSection(Doc(), name).Some? ==> s == sect[FindSection(Doc(), name).value]
      ensures s != null ==> s in sect && s.name == name
    {
      ghost var doc := Doc();
      FindSectionSpec(doc, name);
      if nSect == 0 {
        return null;
      }
      var i := 0;
      while i < nSect
        invariant 0 <= i <= nSect
        invariant FindFrom(doc, name, i) == FindSection(doc, name)
      {
        if sect[i].name == name {
          return sect[i];
        }
        i := i + 1;
      }
      return null;
    }

    /** tini_free: the document is cleared to hold no section, so that it can
        be reused, and no lookup finds anything in it. */
    method Free()
      modifies this
      ensures nSect == 0 && sect == []
      ensures Valid() && Doc() == []
      ensures forall name :: FindSection(Doc(), name) == None
    {
      nSect := 0;
      sect := [];
    }
  }
}
