/** The two collaborators of the codec from the driver's own package: the
    document, an insertion-ordered map from field names to values, and the
    source of fresh identifiers. */
module Mongodb {
  import opened Bson

  /** The contents of a document: its field names in insertion order and the
      value stored under each. */
  datatype Fields = Fields(keys: seq<string>, entries: map<string, Value>) {

    /** Every name occurs once, and the ordered names are exactly the map's keys. */
    ghost predicate Wf() {
      Distinct(keys) && (set k | k in keys) == entries.Keys
    }

    /** The value under `key`, or `Null` when the key is absent: a key that is
        present with a null value and a missing key look the same. */
    function Get(key: string): Value
    {
      if key in entries then entries[key] else Null
    }

    /** Stores `value` under `key`. An existing key keeps its position; a new
        key goes after all the others. */
    function Put(key: string, value: Value): (r: Fields)
      requires Wf()
      ensures r.Wf()
      ensures r.Get(key) == value
      ensures forall k :: k != key ==> r.Get(k) == Get(k)
      ensures key in r.keys
      ensures |keys| <= |r.keys| <= |keys| + 1 && r.keys[..|keys|] == keys
      ensures key in keys ==> r.keys == keys
    {
      if key in entries then
        assert key in (set k | k in keys);
        Fields(keys, entries[key := value])
      else
        var keys' := keys + [key];
        assert keys'[..|keys|] == keys;
        assert (set k | k in keys') == (set k | k in keys) + {key};
        Fields(keys', entries[key := value])
    }
  }

  /** No name occurs twice in `names`. */
  ghost predicate Distinct(names: seq<string>)
  {
    names == [] || (names[|names| - 1] !in names[..|names| - 1] && Distinct(names[..|names| - 1]))
  }

  /** A mutable document. */
  class Document {
    var keys: seq<string>
    var entries: map<string, Value>

    ghost predicate Valid()
      reads this
    {
      View().Wf()
    }

    /** The document's current contents. */
    function View(): Fields
      reads this
    {
      Fields(keys, entries)
    }

    constructor (contents: Fields)
      requires contents.Wf()
      ensures Valid() && View() == contents
    {
      keys, entries := contents.keys, contents.entries;
    }

    function Get(key: string): Value
      reads this
    {
      View().Get(key)
    }

    method Put(key: string, value: Value)
      requires Valid()
      modifies this
      ensures Valid() && View() == old(View()).Put(key, value)
    {
      if key !in entries {
        keys := keys + [key];
      }
      entries := entries[key := value];
    }
  }

  /** A source of identifiers. This one numbers its identifiers; `issued` is
      the log of every identifier it has handed out. */
  class IdGenerator {
    var counter: nat
    ghost var issued: seq<Value>

    constructor ()
      ensures issued == []
    {
      counter := 0;
      issued := [];
    }

    method Generate() returns (id: Value)
      modifies this
      ensures id != Null
      ensures issued == old(issued) + [id]
    {
      id := Object(counter);
      counter := counter + 1;
      issued := issued + [id];
    }
  }
}
