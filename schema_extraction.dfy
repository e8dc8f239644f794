/**
 * extract_json_with_schema: which of the two prompts is sent, and how the model's
 * reply is turned into the result. The prompt wording, the schema and the markdown
 * only shape the text sent to the model; the reply is given as its raw text
 * together with what json.loads makes of it.
 */
module SchemaExtraction {
  import opened Wrappers
  import opened Json

  /** The prompt that is sent: with the suggested instruction in front, or the plain one. */
  datatype PromptKind = Guided(instruction: string) | Unguided

  /** What the call returns, beside which prompt produced it. */
  datatype Extraction = Extraction(prompt: PromptKind, result: Value)

  /** The literal returned when the reply is not valid JSON. */
  function ParseErrorResult(raw: string): (r: Value)
    ensures r.Dict? && KeysOf(r.entries) == [StrKey("error"), StrKey("raw")]
    ensures Get(r.entries, StrKey("error")) == Some(Str("Failed to parse JSON"))
    ensures Get(r.entries, StrKey("raw")) == Some(Str(raw))
  {
    var es := Lit([("error", Str("Failed to parse JSON")), ("raw", Str(raw))]);
    assert es[1..] == [(StrKey("raw"), Str(raw))];
    Dict(es)
  }

  /** `if suggested_prompt:` selects the guided prompt exactly when a non-empty string is given. */
  function ChoosePrompt(suggested: Option<string>): (k: PromptKind)
    ensures k.Guided? <==> suggested.Some? && suggested.value != ""
    ensures k.Guided? ==> k.instruction == suggested.value
  {
    match suggested
    case Some(p) => if p != "" then Guided(p) else Unguided
    case None => Unguided
  }

  /**
   * extract_json_with_schema(structured_markdown, schema, suggested_prompt), once the
   * model has replied raw and json.loads has given parsed for it.
   */
  function ExtractJsonWithSchema(suggested: Option<string>, raw: string, parsed: Parse): (r: Extraction)
    ensures r.prompt == ChoosePrompt(suggested)
    ensures parsed.Parsed? ==> r.result == parsed.value
    ensures parsed.Malformed? ==> r.result.Dict? && KeysOf(r.result.entries) == [StrKey("error"), StrKey("raw")]
    ensures parsed.Malformed? ==> Get(r.result.entries, StrKey("raw")) == Some(Str(raw))
    ensures parsed.Malformed? ==> Get(r.result.entries, StrKey("error")) == Some(Str("Failed to parse JSON"))
  {
    var result := match parsed
      case Parsed(v) => v
      case Malformed => ParseErrorResult(raw);
    Extraction(ChoosePrompt(suggested), result)
  }

  /**
   * The parsed reply is returned as it is: a schema key the reply leaves out stays
   * missing and an extra key stays in. schema {"date", "total"} against the reply
   * {"date": "2024-01-01", "note": "x"} gives a result without "total" and with "note".
   */
  lemma ReplyKeysNotChecked(suggested: Option<string>, raw: string)
    ensures var reply := Dict(Lit([("date", Str("2024-01-01")), ("note", Str("x"))]));
      var r := ExtractJsonWithSchema(suggested, raw, Parsed(reply)).result;
      && r.Dict?
      && Get(r.entries, StrKey("total")).None?
      && Get(r.entries, StrKey("note")) == Some(Str("x"))
  {
  }

  /**
   * A reply that is itself the JSON text of the error object gives the same result
   * as an unparseable reply with that raw text: the caller cannot tell them apart.
   */
  lemma ErrorObjectAmbiguous(suggested: Option<string>, raw: string, text: string)
    ensures ExtractJsonWithSchema(suggested, raw, Parsed(ParseErrorResult(text))).result
         == ExtractJsonWithSchema(suggested, text, Malformed).result
  {
  }
}
