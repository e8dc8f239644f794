/**
 * The metadata step of process_document: the language model's JSON reply is merged
 * with Docling's metadata and with a client name derived from the file name into a
 * record with the keys file_type, language, layout and client_name.
 */
module Metadata {
  import opened Wrappers
  import opened Json
  import opened FileNames

  /** The keys of the normalised record, in the order the dict literal lists them. */
  const MetaKeys: seq<Key> := [StrKey("file_type"), StrKey("language"), StrKey("layout"), StrKey("client_name")]

  /** The dict used in place of the reply when json.loads rejects it. */
  function FallbackMeta(docMeta: seq<(Key, Value)>, filename: string): (r: seq<(Key, Value)>)
    ensures KeysOf(r) == [StrKey("language"), StrKey("layout"), StrKey("client_name")]
    ensures DistinctKeys(r)
    ensures Get(r, StrKey("language")) == Some(GetOr(docMeta, StrKey("language"), Str("NaN")))
    ensures Get(r, StrKey("layout")) == Some(List([]))
    ensures Get(r, StrKey("client_name")) == Some(Str(StripExtension(filename)))
  {
    var language := GetOr(docMeta, StrKey("language"), Str("NaN"));
    var client := Str(StripExtension(filename));
    var r := Lit([("language", language), ("layout", List([])), ("client_name", client)]);
    assert r == [(StrKey("language"), language), (StrKey("layout"), List([])), (StrKey("client_name"), client)];
    GetDistinct(r, 0);
    GetDistinct(r, 1);
    GetDistinct(r, 2);
    r
  }

  /** The normalized_meta dict literal with the four values given. */
  function MetaRecord(fileType: string, language: Value, layout: Value, client: Value): (r: seq<(Key, Value)>)
    ensures KeysOf(r) == MetaKeys
    ensures DistinctKeys(r)
    ensures Get(r, StrKey("file_type")) == Some(Str(fileType))
    ensures Get(r, StrKey("language")) == Some(language)
    ensures Get(r, StrKey("layout")) == Some(layout)
    ensures Get(r, StrKey("client_name")) == Some(client)
  {
    var r := Lit([("file_type", Str(fileType)), ("language", language), ("layout", layout), ("client_name", client)]);
    assert r == [(StrKey("file_type"), Str(fileType)), (StrKey("language"), language),
                 (StrKey("layout"), layout), (StrKey("client_name"), client)];
    GetDistinct(r, 0);
    GetDistinct(r, 1);
    GetDistinct(r, 2);
    GetDistinct(r, 3);
    r
  }

  /** The normalized_meta dict literal, built from the parsed metadata dict metaJson. */
  function Merge(metaJson: seq<(Key, Value)>, docMeta: seq<(Key, Value)>, filename: string): (r: seq<(Key, Value)>)
    ensures KeysOf(r) == MetaKeys
    ensures DistinctKeys(r)
  {
    var language := GetOr(metaJson, StrKey("language"), GetOr(docMeta, StrKey("language"), Str("NaN")));
    var layout := GetOr(metaJson, StrKey("layout"), List([]));
    var client := GetOr(metaJson, StrKey("client_name"), Str(StripExtension(filename)));
    MetaRecord(FileType(filename), language, layout, client)
  }

  /**
   * The metadata step as written: a malformed reply falls back, a parsed dict is
   * merged, and any other parsed value fails on .get with an AttributeError, which
   * is raised outside the try block.
   */
  function NormalizeAsWritten(reply: Parse, docMeta: seq<(Key, Value)>, filename: string): (r: Result<Value>)
    ensures r.Err? <==> reply.Parsed? && !reply.value.Dict?
    ensures r.Ok? ==> r.value.Dict? && KeysOf(r.value.entries) == MetaKeys
  {
    var metaJson := match reply
      case Parsed(v) => v
      case Malformed => Dict(FallbackMeta(docMeta, filename));
    match metaJson
    case Dict(es) => Ok(Dict(Merge(es, docMeta, filename)))
    case _ => Err(AttributeError("'" + TypeName(metaJson) + "' object has no attribute 'get'"))
  }

  /**
   * The metadata step made total: a reply that parses to something other than an
   * object is treated like one that does not parse.
   */
  function Normalize(reply: Parse, docMeta: seq<(Key, Value)>, filename: string): (r: Value)
    ensures r.Dict? && KeysOf(r.entries) == MetaKeys && DistinctKeys(r.entries)
  {
    match reply
    case Parsed(Dict(es)) => Dict(Merge(es, docMeta, filename))
    case _ => Dict(Merge(FallbackMeta(docMeta, filename), docMeta, filename))
  }

  /** The dict process_document returns, around the given markdown and metadata. */
  function ResultRecord(markdown: string, meta: Value): (r: seq<(Key, Value)>)
    ensures KeysOf(r) == [StrKey("structured_markdown"), StrKey("metadata")]
    ensures Get(r, StrKey("structured_markdown")) == Some(Str(markdown))
    ensures Get(r, StrKey("metadata")) == Some(meta)
  {
    var r := [(StrKey("structured_markdown"), Str(markdown)), (StrKey("metadata"), meta)];
    assert r[1..] == [(StrKey("metadata"), meta)];
    r
  }

  /** process_document's result: Docling's markdown, as it is, beside the normalised metadata. */
  function ProcessDocument(markdown: string, docMeta: seq<(Key, Value)>, filename: string, reply: Parse): (r: Result<Value>)
    ensures r.Err? <==> NormalizeAsWritten(reply, docMeta, filename).Err?
    ensures r.Ok? ==> r.value.Dict? && KeysOf(r.value.entries) == [StrKey("structured_markdown"), StrKey("metadata")]
    ensures r.Ok? ==> Get(r.value.entries, StrKey("structured_markdown")) == Some(Str(markdown))
    ensures r.Ok? ==> Get(r.value.entries, StrKey("metadata")) == Some(NormalizeAsWritten(reply, docMeta, filename).value)
  {
    match NormalizeAsWritten(reply, docMeta, filename)
    case Ok(meta) =>
      Ok(Dict(ResultRecord(markdown, meta)))
    case Err(e) => Err(e)
  }

  /** file_type always comes from the file name, whatever the reply says. */
  lemma FileTypeFromName(reply: Parse, docMeta: seq<(Key, Value)>, filename: string)
    ensures Get(Normalize(reply, docMeta, filename).entries, StrKey("file_type")) == Some(Str(FileType(filename)))
  {
  }

  /**
   * A key the model's JSON object holds wins, whatever its value (null, "" and [] included);
   * a key it lacks falls back to Docling's language or "NaN", to [], and to the
   * file name without its extension.
   */
  lemma MergePrefersReply(es: seq<(Key, Value)>, docMeta: seq<(Key, Value)>, filename: string)
    ensures var m := Normalize(Parsed(Dict(es)), docMeta, filename).entries;
      && Get(m, StrKey("language")) == Some(GetOr(es, StrKey("language"), GetOr(docMeta, StrKey("language"), Str("NaN"))))
      && Get(m, StrKey("layout")) == Some(GetOr(es, StrKey("layout"), List([])))
      && Get(m, StrKey("client_name")) == Some(GetOr(es, StrKey("client_name"), Str(StripExtension(filename))))
  {
  }

  /**
   * When the reply does not parse, the record is fixed by the fallbacks alone:
   * Docling's language (or "NaN"), an empty layout and the stripped file name.
   */
  lemma MalformedReplyFallsBack(docMeta: seq<(Key, Value)>, filename: string)
    ensures Normalize(Malformed, docMeta, filename) == Dict(Lit([
      ("file_type", Str(FileType(filename))),
      ("language", GetOr(docMeta, StrKey("language"), Str("NaN"))),
      ("layout", List([])),
      ("client_name", Str(StripExtension(filename)))]))
  {
    var fb := FallbackMeta(docMeta, filename);
    var language := GetOr(docMeta, StrKey("language"), Str("NaN"));
    var client := Str(StripExtension(filename));
    assert GetOr(fb, StrKey("language"), language) == language;
    assert GetOr(fb, StrKey("layout"), List([])) == List([]);
    assert GetOr(fb, StrKey("client_name"), client) == client;
    assert Normalize(Malformed, docMeta, filename) == Dict(MetaRecord(FileType(filename), language, List([]), client));
  }

  /** A reply that parses to an array, a string, a number or null makes the step as written fail. */
  lemma NonObjectReplyFails(v: Value, docMeta: seq<(Key, Value)>, filename: string)
    requires !v.Dict?
    ensures NormalizeAsWritten(Parsed(v), docMeta, filename)
         == Err(AttributeError("'" + TypeName(v) + "' object has no attribute 'get'"))
  {
  }

  /** The reply "[]" is such a reply: json.loads accepts it, and .get then fails on the list. */
  lemma EmptyArrayReplyFails(docMeta: seq<(Key, Value)>, filename: string)
    ensures NormalizeAsWritten(Parsed(List([])), docMeta, filename).Err?
  {
  }

  /** Wherever the step as written succeeds, the total version gives the same record. */
  lemma NormalizeAgrees(reply: Parse, docMeta: seq<(Key, Value)>, filename: string)
    ensures NormalizeAsWritten(reply, docMeta, filename).Ok? ==>
      NormalizeAsWritten(reply, docMeta, filename).value == Normalize(reply, docMeta, filename)
  {
  }
}
