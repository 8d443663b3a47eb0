/**
 * The `whoop_tokens` collection that api/callback.js inserts into and
 * api/whatsapp.js reads: documents in insertion order, appended to, never
 * updated.
 */
module Tokens {

  import opened Js

  /** A stored document: field names to JSON values. */
  type Doc = map<string, Value>

  /** Whether a document's `whatsapp` field is exactly the given string. */
  predicate Matches(doc: Doc, whatsapp: string) {
    "whatsapp" in doc && doc["whatsapp"] == Str(whatsapp)
  }

  /** `findOne({ whatsapp })`: the first matching document in the collection's natural order, taken here as insertion order. */
  function FindOne(docs: seq<Doc>, whatsapp: string): (r: Option<Doc>)
    ensures r.Some? ==> r.value in docs && Matches(r.value, whatsapp)
    ensures r.None? <==> forall i :: 0 <= i < |docs| ==> !Matches(docs[i], whatsapp)
    decreases |docs|
  {
    if docs == [] then None
    else if Matches(docs[0], whatsapp) then Some(docs[0])
    else
      assert forall i :: 1 <= i < |docs| ==> docs[i] == docs[1..][i - 1];
      FindOne(docs[1..], whatsapp)
  }

  /** How many documents carry the given number. */
  function Count(docs: seq<Doc>, whatsapp: string): (n: nat)
    ensures n <= |docs|
    decreases |docs|
  {
    if docs == [] then 0
    else (if Matches(docs[|docs| - 1], whatsapp) then 1 else 0) + Count(docs[..|docs| - 1], whatsapp)
  }

  /** Appending a document adds one to its number's count and leaves every other count alone. */
  lemma CountAppend(docs: seq<Doc>, doc: Doc, whatsapp: string)
    ensures Count(docs + [doc], whatsapp) == Count(docs, whatsapp) + (if Matches(doc, whatsapp) then 1 else 0)
  {
    assert (docs + [doc])[..|docs|] == docs;
  }

  /** Appending keeps the first match: a number already present is still found as before. */
  lemma {:induction false} FindOneAppend(docs: seq<Doc>, doc: Doc, whatsapp: string)
    ensures FindOne(docs + [doc], whatsapp)
         == if FindOne(docs, whatsapp).Some? then FindOne(docs, whatsapp)
            else if Matches(doc, whatsapp) then Some(doc) else None
    decreases |docs|
  {
    if docs == [] {
      assert docs + [doc] == [doc];
    } else {
      assert (docs + [doc])[0] == docs[0] && (docs + [doc])[1..] == docs[1..] + [doc];
      FindOneAppend(docs[1..], doc, whatsapp);
    }
  }

  /** The `whoop_tokens` collection. */
  class Collection {
    var docs: seq<Doc>

    constructor()
      ensures docs == []
    {
      docs := [];
    }

    /** `insertOne(doc)`: appended at the end, nothing else changed. */
    method InsertOne(doc: Doc)
      modifies this
      ensures docs == old(docs) + [doc]
      ensures forall w :: Count(docs, w) == Count(old(docs), w) + (if Matches(doc, w) then 1 else 0)
    {
      CountAppendAll(docs, doc);
      docs := docs + [doc];
    }
  }

  lemma CountAppendAll(docs: seq<Doc>, doc: Doc)
    ensures forall w :: Count(docs + [doc], w) == Count(docs, w) + (if Matches(doc, w) then 1 else 0)
  {
    forall w {
      CountAppend(docs, doc, w);
    }
  }
}
