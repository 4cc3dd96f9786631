/** The part of the BSON layer the codec talks to: field values, taken as
    opaque, and a writer that records the names and values written to it. */
module Bson {

  /** A field value. `Null` is the absent/null reference; every other value is
      opaque and only told apart from the others by its handle. */
  datatype Value = Null | Object(handle: nat)

  /** One write made on a BSON writer: a field name or a field value. */
  datatype Token = FieldName(name: string) | FieldValue(value: Value)

  /** A BSON writer, modelled as the log of everything written to it. */
  class BsonWriter {
    var tokens: seq<Token>

    constructor ()
      ensures tokens == []
    {
      tokens := [];
    }

    method WriteName(name: string)
      modifies this
      ensures tokens == old(tokens) + [FieldName(name)]
    {
      tokens := tokens + [FieldName(name)];
    }

    method WriteValue(value: Value)
      modifies this
      ensures tokens == old(tokens) + [FieldValue(value)]
    {
      tokens := tokens + [FieldValue(value)];
    }
  }

  /** The field names in a token log, in the order they were written. */
  function Names(tokens: seq<Token>): seq<string>
  {
    if tokens == [] then []
    else
      var last := tokens[|tokens| - 1];
      Names(tokens[..|tokens| - 1]) + (if last.FieldName? then [last.name] else [])
  }

  /** The names of two logs written one after the other are the names of the
      first followed by those of the second. */
  lemma {:induction false} NamesAppend(a: seq<Token>, b: seq<Token>)
    ensures Names(a + b) == Names(a) + Names(b)
    decreases |b|
  {
    if b == [] {
      assert a + b == a;
    } else {
      var b' := b[..|b| - 1];
      assert (a + b)[..|a + b| - 1] == a + b';
      NamesAppend(a, b');
    }
  }

  /** A name was written exactly when it occurs among the log's names. */
  lemma {:induction false} NameWritten(tokens: seq<Token>, name: string)
    ensures FieldName(name) in tokens <==> name in Names(tokens)
    decreases |tokens|
  {
    if tokens != [] {
      var prefix := tokens[..|tokens| - 1];
      assert tokens == prefix + [tokens[|tokens| - 1]];
      NameWritten(prefix, name);
    }
  }
}
