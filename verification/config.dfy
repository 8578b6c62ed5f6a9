/** Application settings (backend/app/core/config.py): the defaults the services
    read, and the validator that turns a comma-separated CORS string into a list. */
module Config {
  import opened Strings

  /** `DATABASE_URL` default: a synchronous SQLite URL. */
  const DatabaseUrl: string := "sqlite:///./ai_learning_assistant.db"

  /** `OPENAI_API_KEY` default: empty, meaning "not configured". */
  const OpenAiApiKey: string := ""

  /** `CHUNK_SIZE`: words per chunk when the caller gives none. */
  const ChunkSize: int := 1000

  /** `CHUNK_OVERLAP`: words carried between chunks when the caller gives none. */
  const ChunkOverlap: int := 200

  /** `MIN_QUIZ_ACCURACY`: fraction of correct answers needed to pass a quiz. */
  const MinQuizAccuracy: real := 0.7

  /** `WEAK_AREA_THRESHOLD`: a topic is weak when its errors exceed (1 - this) of all questions. */
  const WeakAreaThreshold: real := 0.6

  /** `CORS_ORIGINS` default: the two local front-end origins. */
  const CorsOrigins: seq<string> := ["http://localhost:3000", "http://localhost:3001"]

  /** The value handed to the `CORS_ORIGINS` validator: an environment string or an
      already-parsed list. */
  datatype CorsSetting = CorsString(text: string) | CorsList(origins: seq<string>)

  /** `parse_cors_origins`: a string becomes its comma-separated pieces, each stripped of
      surrounding whitespace, in order and with empty pieces kept; a list passes through. */
  function ParseCorsOrigins(v: CorsSetting): (origins: seq<string>)
    ensures v.CorsList? ==> origins == v.origins
    ensures v.CorsString? ==> |origins| == multiset(v.text)[','] + 1
    ensures v.CorsString? ==> var pieces := Split(v.text, ",");
              && |origins| == |pieces|
              && forall i :: 0 <= i < |origins| ==> Trimmed(origins[i]) && PaddedBy(pieces[i], origins[i])
  {
    match v
    case CorsString(text) =>
      SplitCount(text, ',');
      SplitStrip(text, ",")
    case CorsList(origins) => origins
  }

  /** Writing origins comma-separated and parsing them back gives the same list, for
      origins that have no comma and no surrounding whitespace. */
  lemma CorsRoundTrip(origins: seq<string>)
    requires |origins| >= 1
    requires forall i :: 0 <= i < |origins| ==> ',' !in origins[i] && Trimmed(origins[i])
    ensures ParseCorsOrigins(CorsString(Join(origins, ","))) == origins
  {
    SplitStripJoin(origins, ',');
  }

  /** An empty setting string yields one empty origin rather than no origins. */
  lemma EmptyCorsStringGivesOneEmptyOrigin()
    ensures ParseCorsOrigins(CorsString("")) == [""]
  {
    assert Split("", ",") == [""] by {
      SplitCount("", ',');
    }
  }
}
