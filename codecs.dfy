/** The codec for documents that go in collections: it makes sure every
    document it encodes has an `_id`, writes that field first, and keeps the
    ordinary pass over the fields from writing it a second time. */
module Codecs {
  import opened Bson
  import opened Mongodb

  /** The reserved name of the identifier field. */
  const IdFieldName: string := "_id"

  datatype Result<T> = Success(value: T) | Failure(error: string)

  /** The table that says which encoder handles documents. */
  class EncoderRegistry {
    var documentEncoder: CollectibleDocumentCodec?

    constructor ()
      ensures documentEncoder == null
    {
      documentEncoder := null;
    }

    method Register(encoder: CollectibleDocumentCodec)
      modifies this
      ensures documentEncoder == encoder
    {
      documentEncoder := encoder;
    }
  }

  class CollectibleDocumentCodec {
    const idGenerator: IdGenerator

    /** Builds a codec over a generator that exists, and registers it as the
        encoder for documents. */
    constructor (idGenerator: IdGenerator, registry: EncoderRegistry)
      modifies registry
      ensures this.idGenerator == idGenerator
      ensures registry.documentEncoder == this
    {
      this.idGenerator := idGenerator;
      new;
      registry.Register(this);
    }

    /** Construction as callers see it: a missing generator is refused before
        anything is registered. */
    static method Create(idGenerator: IdGenerator?, registry: EncoderRegistry)
      returns (r: Result<CollectibleDocumentCodec>)
      modifies registry
      ensures r.Failure? <==> idGenerator == null
      ensures r.Failure? ==> r.error == "idGenerator is null" && unchanged(registry)
      ensures r.Success? ==>
        fresh(r.value) && r.value.idGenerator == idGenerator && registry.documentEncoder == r.value
    {
      if idGenerator == null {
        return Failure("idGenerator is null");
      }
      var codec := new CollectibleDocumentCodec(idGenerator, registry);
      r := Success(codec);
    }

    /** The step run before the ordinary field pass: give the document an
        identifier if it has none, then write the identifier field. */
    method BeforeFields(writer: BsonWriter, document: Document)
      requires document.Valid()
      modifies writer, document, idGenerator
      ensures document.Valid()
      ensures document.Get(IdFieldName) != Null
      ensures old(document.Get(IdFieldName)) != Null ==>
        document.View() == old(document.View()) && unchanged(idGenerator)
      ensures old(document.Get(IdFieldName)) == Null ==>
        && |idGenerator.issued| == |old(idGenerator.issued)| + 1
        && idGenerator.issued[..|old(idGenerator.issued)|] == old(idGenerator.issued)
        && document.View() == old(document.View()).Put(IdFieldName, idGenerator.issued[|old(idGenerator.issued)|])
      ensures writer.tokens == old(writer.tokens) + [FieldName(IdFieldName), FieldValue(document.Get(IdFieldName))]
    {
      if document.Get(IdFieldName) == Null {
        var id := idGenerator.Generate();
        document.Put(IdFieldName, id);
      }
      writer.WriteName(IdFieldName);
      writer.WriteValue(document.Get(IdFieldName));
      AppendTwo(old(writer.tokens), FieldName(IdFieldName), FieldValue(document.Get(IdFieldName)));
    }

    /** The one field the ordinary pass leaves out. */
    static predicate SkipField(key: string)
    {
      key == IdFieldName
    }

    /** The identifier a document holds; `Null` when it has none. */
    function GetId(document: Document): (id: Value)
      reads document
      ensures id != Null ==> IdFieldName in document.entries && document.entries[IdFieldName] == id
      ensures IdFieldName in document.entries ==> id == document.entries[IdFieldName]
      ensures IdFieldName !in document.entries ==> id == Null
    {
      document.Get(IdFieldName)
    }

    /** The ordinary pass over the fields, in document order: the name and
        then the value of every field that is not skipped. */
    method WriteFields(writer: BsonWriter, document: Document)
      modifies writer
      ensures writer.tokens == old(writer.tokens) + FieldPass(document.keys, document.View())
    {
      var i := 0;
      while i < |document.keys|
        invariant 0 <= i <= |document.keys|
        invariant writer.tokens == old(writer.tokens) + FieldPass(document.keys[..i], document.View())
      {
        var key := document.keys[i];
        assert document.keys[..i + 1][..i] == document.keys[..i];
        if !SkipField(key) {
          writer.WriteName(key);
          writer.WriteValue(document.Get(key));
        }
        i := i + 1;
      }
      assert document.keys[..i] == document.keys;
    }

    /** Encodes a document: the identifier step, then the ordinary pass. */
    method Encode(writer: BsonWriter, document: Document)
      requires document.Valid()
      modifies writer, document, idGenerator
      ensures document.Valid()
      ensures document.Get(IdFieldName) != Null
      ensures old(document.Get(IdFieldName)) != Null ==>
        document.View() == old(document.View()) && unchanged(idGenerator)
      ensures old(document.Get(IdFieldName)) == Null ==>
        && |idGenerator.issued| == |old(idGenerator.issued)| + 1
        && idGenerator.issued[..|old(idGenerator.issued)|] == old(idGenerator.issued)
        && document.View() == old(document.View()).Put(IdFieldName, idGenerator.issued[|old(idGenerator.issued)|])
      ensures writer.tokens == old(writer.tokens) + Encoding(document.View())
      ensures writer.tokens[|old(writer.tokens)|] == FieldName(IdFieldName)
      ensures writer.tokens[|old(writer.tokens)| + 1] == FieldValue(GetId(document))
    {
      BeforeFields(writer, document);
      ghost var written := writer.tokens;
      WriteFields(writer, document);
      EncodingFollowsIdPair(old(writer.tokens), written, writer.tokens, document.View());
    }
  }

  /** What the ordinary pass writes for the keys `keys` of a document whose
      contents are `f`. */
  function FieldPass(keys: seq<string>, f: Fields): seq<Token>
  {
    if keys == [] then []
    else
      var last := keys[|keys| - 1];
      FieldPass(keys[..|keys| - 1], f)
        + (if CollectibleDocumentCodec.SkipField(last) then [] else [FieldName(last), FieldValue(f.Get(last))])
  }

  /** Everything an encode writes for a document whose contents are `f` once
      it holds an identifier. */
  function Encoding(f: Fields): seq<Token>
  {
    [FieldName(IdFieldName), FieldValue(f.Get(IdFieldName))] + FieldPass(f.keys, f)
  }

  // AppendTwo and EncodingFollowsIdPair state token-log equalities on plain
  // values, so that proving them does not happen inside the method contexts,
  // where the heap makes the same step far more expensive.
  lemma AppendTwo(s: seq<Token>, x: Token, y: Token)
    ensures s + [x] + [y] == s + [x, y]
  {
  }

  /** Writing the identifier field and then running the ordinary pass writes
      exactly the encoding. */
  lemma EncodingFollowsIdPair(before: seq<Token>, afterId: seq<Token>, after: seq<Token>, f: Fields)
    requires afterId == before + [FieldName(IdFieldName), FieldValue(f.Get(IdFieldName))]
    requires after == afterId + FieldPass(f.keys, f)
    ensures after == before + Encoding(f)
  {
  }

  /** `keys` without `name`, the others in their original order. */
  function Without(keys: seq<string>, name: string): (r: seq<string>)
    ensures forall k :: k in r <==> k in keys && k != name
    ensures |r| <= |keys|
  {
    if keys == [] then []
    else
      var last := keys[|keys| - 1];
      assert keys == keys[..|keys| - 1] + [last];
      Without(keys[..|keys| - 1], name) + (if last == name then [] else [last])
  }

  /** Each of `names` in turn, written as its name followed by its value in `f`. */
  function Pairs(names: seq<string>, f: Fields): (r: seq<Token>)
    ensures |r| == 2 * |names|
    ensures forall j :: 0 <= j < |names| ==>
      r[2 * j] == FieldName(names[j]) && r[2 * j + 1] == FieldValue(f.Get(names[j]))
  {
    if names == [] then []
    else
      var last := names[|names| - 1];
      Pairs(names[..|names| - 1], f) + [FieldName(last), FieldValue(f.Get(last))]
  }

  lemma {:induction false} PairsAppend(a: seq<string>, b: seq<string>, f: Fields)
    ensures Pairs(a + b, f) == Pairs(a, f) + Pairs(b, f)
    decreases |b|
  {
    if b == [] {
      assert a + b == a;
    } else {
      var b' := b[..|b| - 1];
      assert (a + b)[..|a + b| - 1] == a + b';
      PairsAppend(a, b', f);
    }
  }

  /** The names written by `Pairs` are the names it was given, in order. */
  lemma {:induction false} NamesOfPairs(names: seq<string>, f: Fields)
    ensures Names(Pairs(names, f)) == names
    decreases |names|
  {
    if names != [] {
      var prefix := names[..|names| - 1];
      var last := names[|names| - 1];
      NamesOfPairs(prefix, f);
      var pair := [FieldName(last), FieldValue(f.Get(last))];
      NamesAppend(Pairs(prefix, f), pair);
      assert pair[..1] == [FieldName(last)];
      assert Names([FieldName(last)]) == [last] by {
        assert [FieldName(last)][..0] == [];
      }
      assert Names(pair) == [last];
      assert names == prefix + [last];
    }
  }

  /** The ordinary pass writes the name and value of every field except the
      identifier, in document order. */
  lemma {:induction false} FieldPassWritesOtherFields(keys: seq<string>, f: Fields)
    ensures FieldPass(keys, f) == Pairs(Without(keys, IdFieldName), f)
    decreases |keys|
  {
    if keys != [] {
      var prefix := keys[..|keys| - 1];
      var last := keys[|keys| - 1];
      var w := Without(prefix, IdFieldName);
      FieldPassWritesOtherFields(prefix, f);
      if last == IdFieldName {
        assert Without(keys, IdFieldName) == w;
      } else {
        assert Without(keys, IdFieldName) == w + [last];
        assert (w + [last])[..|w|] == w;
        assert Pairs(w + [last], f) == Pairs(w, f) + [FieldName(last), FieldValue(f.Get(last))];
      }
    }
  }

  /** A field name reaches the ordinary pass's output exactly when it is a key
      of the document other than the identifier. */
  lemma FieldPassSkipsExactlyId(keys: seq<string>, f: Fields, name: string)
    ensures FieldName(name) in FieldPass(keys, f) <==> name in keys && name != IdFieldName
  {
    FieldPassWritesOtherFields(keys, f);
    NamesOfPairs(Without(keys, IdFieldName), f);
    NameWritten(FieldPass(keys, f), name);
  }

  /** An encoding is the identifier field followed by every other field in
      document order, each name followed by its own value. */
  lemma EncodingIsIdThenOtherFields(f: Fields)
    ensures Encoding(f) == Pairs([IdFieldName] + Without(f.keys, IdFieldName), f)
  {
    FieldPassWritesOtherFields(f.keys, f);
    PairsAppend([IdFieldName], Without(f.keys, IdFieldName), f);
    assert Pairs([IdFieldName], f) == [FieldName(IdFieldName), FieldValue(f.Get(IdFieldName))];
  }

  /** The identifier field is written first and exactly once, and the value
      written with it is the one the document holds. */
  lemma IdWrittenFirstAndOnce(f: Fields)
    ensures Encoding(f)[0] == FieldName(IdFieldName)
    ensures Encoding(f)[1] == FieldValue(f.Get(IdFieldName))
    ensures Names(Encoding(f)) == [IdFieldName] + Without(f.keys, IdFieldName)
    ensures multiset(Names(Encoding(f)))[IdFieldName] == 1
  {
    var others := Without(f.keys, IdFieldName);
    EncodingIsIdThenOtherFields(f);
    NamesOfPairs([IdFieldName] + others, f);
    assert IdFieldName !in others;
    assert multiset([IdFieldName] + others) == multiset([IdFieldName]) + multiset(others);
  }
}
