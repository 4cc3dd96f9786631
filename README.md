# Collectible document codec

A model of the MongoDB Java driver's codec for documents that go in
collections (`CollectibleDocumentCodec`). Every document it encodes must carry
an identifier under the reserved field name `_id`. Encoding a document does
three things:

- if the document has no usable `_id`, a fresh identifier is generated and
  put into the document under `_id` (the document changes in place);
- the field `_id` and its value are written first;
- the ordinary pass over the document's fields then writes every other
  field in document order, skipping `_id` so that it is not written twice.

`getId` reads the identifier back.

The project has three modules:

- `Bson` (`bson.dfy`): field values, kept opaque (`Null` or an object told
  apart by a handle); a BSON writer modelled as the log of the names and
  values written to it; `Names`, the field names in a log.
- `Mongodb` (`mongodb.dfy`): `Fields`, the contents of a document as an
  insertion-ordered map; the mutable `Document` class; the `IdGenerator`
  class, which numbers its identifiers and keeps a ghost log of those it
  issued.
- `Codecs` (`codecs.dfy`): the codec class with its construction,
  `BeforeFields`, `SkipField`, `GetId`, the ordinary field pass
  (`WriteFields`) and `Encode`, plus the functions that specify the output
  (`FieldPass`, `Encoding`, and the reference definition `Pairs` over
  `Without`) and the lemmas that relate them.

`Document.java` and `IdGenerator.java` are not part of this model's source.
The document is modelled as the driver uses it, a `LinkedHashMap`: `get`
gives `null` for a missing key and for a key stored with `null`, and `put` of
an existing key keeps that key's position while `put` of a new key appends
it. The base `DocumentCodec`, whose encode loop calls the two hooks, is not
part of this model's source either; its field pass is modelled as a loop over
the document's keys in order that asks `SkipField` of each and writes the
name and value of the keys it keeps.

A document counts as having no identifier when `get("_id")` returns `null`
(`CollectibleDocumentCodec.java:46`). That covers both a missing key and a key
stored with `null`. Such a key is overwritten in place, keeps its position
among the keys, and is still written first.

## Model

| member | source | states |
|---|---|---|
| `Mongodb.Fields.Put` | driver/src/main/org/mongodb/codecs/CollectibleDocumentCodec.java:47 | after a put the key holds the new value and every other key's value is as before; the existing keys keep their order and the only key that can be added is this one, at the end, and only when it was absent; the document stays well formed (distinct keys matching the map) |
| `Mongodb.Document.Put` | driver/src/main/org/mongodb/codecs/CollectibleDocumentCodec.java:47 | the document's new contents are its old contents after `Fields.Put`, and it stays valid |
| `Mongodb.IdGenerator.Generate` | driver/src/main/org/mongodb/codecs/CollectibleDocumentCodec.java:47 | each call returns a non-null identifier and appends it to the log of issued identifiers |
| `Codecs.CollectibleDocumentCodec.constructor` | driver/src/main/org/mongodb/codecs/CollectibleDocumentCodec.java:34-42 | the codec keeps the generator it was given and ends up registered as the encoder for documents |
| `Codecs.CollectibleDocumentCodec.Create` | driver/src/main/org/mongodb/codecs/CollectibleDocumentCodec.java:37-41 | construction fails with "idGenerator is null" exactly when no generator is given, and then the registry is left untouched; otherwise it yields a new codec over that generator, registered for documents |
| `Codecs.CollectibleDocumentCodec.BeforeFields` | driver/src/main/org/mongodb/codecs/CollectibleDocumentCodec.java:44-51 | afterwards the document holds a non-null `_id`; when it already held one, the document and the generator are left untouched; when it did not, exactly one identifier is generated and put under `_id`, so every other field keeps its value and position; the writer then receives the name `_id` followed by the value the document now holds there |
| `Codecs.IdFieldName` | driver/src/main/org/mongodb/codecs/CollectibleDocumentCodec.java:30 | the reserved identifier field name, the constant `"_id"`; it is a constant, so it has no contract of its own |
| `Codecs.CollectibleDocumentCodec.SkipField` | driver/src/main/org/mongodb/codecs/CollectibleDocumentCodec.java:53-56 | true exactly for the key `_id`; it has no contract of its own, and its effect on the output is stated by `FieldPassSkipsExactlyId` |
| `Codecs.CollectibleDocumentCodec.GetId` | driver/src/main/org/mongodb/codecs/CollectibleDocumentCodec.java:58-61 | the result is the value stored under `_id` when that key is present (a non-null result always is), and `Null` when the key is absent; as a function it changes nothing |
| `Codecs.CollectibleDocumentCodec.WriteFields` | driver/src/main/org/mongodb/codecs/CollectibleDocumentCodec.java:53-56 | the ordinary pass appends to the writer exactly `FieldPass` of the document's keys: for each key in order that `SkipField` does not reject, its name and then its value |
| `Codecs.CollectibleDocumentCodec.Encode` | driver/src/main/org/mongodb/codecs/CollectibleDocumentCodec.java:44-56 | the same document and generator facts as `BeforeFields` (generation happens exactly when `_id` was missing or null); the writer receives `Encoding` of the document's new contents; the first thing written is the name `_id` and the second is the value `GetId` returns afterwards |
| `Codecs.FieldPassSkipsExactlyId` | driver/src/main/org/mongodb/codecs/CollectibleDocumentCodec.java:53-56 | a field name is written by the ordinary pass if and only if it is a key of the document other than `_id` |
| `Codecs.FieldPassWritesOtherFields` | driver/src/main/org/mongodb/codecs/CollectibleDocumentCodec.java:53-56 | the ordinary pass writes the same as the reference definition: the name/value pairs of the keys other than `_id`, in document order |
| `Codecs.EncodingIsIdThenOtherFields` | driver/src/main/org/mongodb/codecs/CollectibleDocumentCodec.java:25-28 | an encoding is the `_id` pair followed by the pair of every other key in document order, each name followed by its own value, wherever `_id` stood among the keys |
| `Codecs.IdWrittenFirstAndOnce` | driver/src/main/org/mongodb/codecs/CollectibleDocumentCodec.java:44-56 | in an encoding the first token is the name `_id` and the second its value in the document; the names written are `_id` followed by the other keys in order, and `_id` occurs among them exactly once |

## Left out

- Binary BSON output and the recursive, type-driven `writeValue`: values are opaque and a value is one token in the writer's log.
- Nested documents routed back through the encoder registry: the registry is reduced to the one entry for documents, and nested values are not encoded.
- The start and end markers of a document written by the base `DocumentCodec`, which is not part of this model.
- The field name validation done by `FieldNameValidator` during the base pass: it is an external policy.
- The primitive codecs passed to the constructor and the unused private `encoderRegistry` field: neither takes part in the behaviour modelled.
- The registry is passed to the constructor as a parameter instead of being reached through the base class, whose registry is not visible here.
- Mongodb.IdGenerator.Generate: promises only a non-null identifier; uniqueness of identifiers belongs to the generator's own contract. A generator that fails or returns `null` is not modelled.
- A `null` document or a `null` field name (which would raise `NullPointerException` in Java) cannot be expressed: documents and names are never null here.
- Concurrent use of one document or one registry from several threads.
