/** A multi-valued header map, names in lower case, as src/proxy.rs uses it. */
module Headers {
  import opened Wrappers

  datatype Header = Header(name: string, value: string)

  /** All values of one name, in order. */
  function Values(hs: seq<Header>, name: string): seq<string> {
    if hs == [] then []
    else Values(hs[..|hs| - 1], name) + (if hs[|hs| - 1].name == name then [hs[|hs| - 1].value] else [])
  }

  function First(hs: seq<Header>, name: string): Option<string> {
    if Values(hs, name) == [] then None else Some(Values(hs, name)[0])
  }

  lemma ValuesAppend(hs: seq<Header>, h: Header, name: string)
    ensures Values(hs + [h], name) == Values(hs, name) + if h.name == name then [h.value] else []
  {
    assert (hs + [h])[..|hs|] == hs;
  }

  class HeaderMap {
    var entries: seq<Header>

    constructor (entries: seq<Header>)
      ensures this.entries == entries
    {
      this.entries := entries;
    }

    /** Drops every value of `name`. */
    method Remove(name: string)
      modifies this
      ensures Values(entries, name) == []
      ensures forall n :: n != name ==> Values(entries, n) == Values(old(entries), n)
    {
      var kept: seq<Header> := [];
      var i := 0;
      while i < |entries|
        invariant 0 <= i <= |entries| && entries == old(entries)
        invariant Values(kept, name) == []
        invariant forall n :: n != name ==> Values(kept, n) == Values(entries[..i], n)
      {
        ghost var before := kept;
        assert entries[..i + 1] == entries[..i] + [entries[i]];
        if entries[i].name != name {
          kept := kept + [entries[i]];
        }
        forall n | n != name ensures Values(kept, n) == Values(entries[..i + 1], n) {
          ValuesAppend(entries[..i], entries[i], n);
          ValuesAppend(before, entries[i], n);
        }
        ValuesAppend(before, entries[i], name);
        i := i + 1;
      }
      assert entries[..i] == entries;
      entries := kept;
    }

    /** Adds a value after those the name already has. */
    method Append(name: string, value: string)
      modifies this
      ensures entries == old(entries) + [Header(name, value)]
      ensures Values(entries, name) == Values(old(entries), name) + [value]
      ensures forall n :: n != name ==> Values(entries, n) == Values(old(entries), n)
    {
      forall n { ValuesAppend(entries, Header(name, value), n); }
      entries := entries + [Header(name, value)];
    }

    /** Replaces all values of `name` by one. */
    method Insert(name: string, value: string)
      modifies this
      ensures Values(entries, name) == [value]
      ensures forall n :: n != name ==> Values(entries, n) == Values(old(entries), n)
    {
      Remove(name);
      Append(name, value);
    }
  }
}
