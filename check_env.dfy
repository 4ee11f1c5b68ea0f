/**
 * The diagnostics route `GET /api/check-env`: for each of the two API-key
 * variables it reports whether the key is set and a masked form of it
 * that shows at most its first four and last four characters.
 */
module CheckEnv {
  import opened Wrappers
  import opened Environment
  import GenerateGifts

  const NotSet := "not set"
  const ShortMask := "****"
  const Ellipsis := "..."

  /** The masked form of a key: "not set" when the variable is missing or
      empty, four stars when the key has at most eight characters, and
      otherwise its first four characters, "..." and its last four. */
  function MaskKey(key: EnvVar): (r: string)
    ensures !IsSet(key) ==> r == NotSet
    ensures IsSet(key) && |key.value| <= 8 ==> r == ShortMask
    ensures IsSet(key) && |key.value| > 8 ==>
      |r| == 11 && r[..4] == key.value[..4] && r[4..7] == Ellipsis
      && r[7..] == key.value[|key.value| - 4..]
  {
    if !IsSet(key) then NotSet
    else if |key.value| <= 8 then ShortMask
    else key.value[..4] + Ellipsis + key.value[|key.value| - 4..]
  }

  /** The `set` / `not set` flag, by the truthiness of the variable. */
  function KeyFlag(key: EnvVar): (r: string)
    ensures r == "set" <==> IsSet(key)
    ensures r == "set" || r == NotSet
  {
    if IsSet(key) then "set" else NotSet
  }

  /** The `apiKeysConfigured` object of the response. `geminiApiKey` is the
      `GEMINI_API_KEY` flag and `googleGenerativeAiApiKey` the
      `GOOGLE_GENERATIVE_AI_API_KEY` flag; the two masks keep their names. */
  datatype KeysReport = KeysReport(
    geminiApiKey: string,
    googleGenerativeAiApiKey: string,
    maskedGeminiKey: string,
    maskedGoogleGenAIKey: string)

  /** The response body; `environment` is absent when NODE_ENV is unset. */
  datatype EnvReport = EnvReport(
    environment: Option<string>,
    apiKeysConfigured: KeysReport,
    timestamp: string)

  /** The route's response for the given environment and the current time,
      already rendered as an ISO-8601 string. */
  function CheckEnvReport(nodeEnv: Option<string>, geminiKey: EnvVar, googleKey: EnvVar,
                          now: string): (r: EnvReport)
    ensures r.environment == nodeEnv && r.timestamp == now
    ensures r.apiKeysConfigured.geminiApiKey == KeyFlag(geminiKey)
    ensures r.apiKeysConfigured.googleGenerativeAiApiKey == KeyFlag(googleKey)
    ensures r.apiKeysConfigured.geminiApiKey == (if IsSet(geminiKey) then "set" else NotSet)
    ensures r.apiKeysConfigured.googleGenerativeAiApiKey == (if IsSet(googleKey) then "set" else NotSet)
    ensures r.apiKeysConfigured.maskedGeminiKey == MaskKey(geminiKey)
    ensures r.apiKeysConfigured.maskedGoogleGenAIKey == MaskKey(googleKey)
  {
    EnvReport(
      nodeEnv,
      KeysReport(KeyFlag(geminiKey), KeyFlag(googleKey), MaskKey(geminiKey), MaskKey(googleKey)),
      now)
  }

  /** The three shapes of a mask, and which keys produce each: the shapes
      have different lengths, so a reader can always tell them apart. */
  lemma MaskShape(key: EnvVar)
    ensures MaskKey(key) == NotSet <==> !IsSet(key)
    ensures MaskKey(key) == ShortMask <==> IsSet(key) && |key.value| <= 8
    ensures |MaskKey(key)| == 11 <==> IsSet(key) && |key.value| > 8
  {
  }

  /** The mask of a long key depends only on its first four and last four
      characters: keys that agree there are masked alike, whatever their
      middles and lengths. */
  lemma MaskHidesMiddle(k1: string, k2: string)
    requires |k1| > 8 && |k2| > 8
    requires k1[..4] == k2[..4] && k1[|k1| - 4..] == k2[|k2| - 4..]
    ensures MaskKey(Some(k1)) == MaskKey(Some(k2))
  {
  }

  /** A key of at most eight characters is not revealed at all: every such
      key has the same mask. */
  lemma MaskHidesShortKeys(k1: string, k2: string)
    requires 0 < |k1| <= 8 && 0 < |k2| <= 8
    ensures MaskKey(Some(k1)) == MaskKey(Some(k2)) == ShortMask
  {
  }

  /** Conversely, a long key's mask determines its first and last four
      characters. */
  lemma MaskShowsEnds(k1: string, k2: string)
    requires |k1| > 8 && |k2| > 8
    requires MaskKey(Some(k1)) == MaskKey(Some(k2))
    ensures k1[..4] == k2[..4] && k1[|k1| - 4..] == k2[|k2| - 4..]
  {
  }

  /** The flag and the mask agree on whether a key is set. */
  lemma FlagAgreesWithMask(key: EnvVar)
    ensures KeyFlag(key) == NotSet <==> MaskKey(key) == NotSet
  {
    MaskShape(key);
  }

  /** The route reports a key as set exactly when `generateGiftIdeas` would
      find an API key and go ahead. */
  lemma ReportMatchesGeneration(nodeEnv: Option<string>, geminiKey: EnvVar, googleKey: EnvVar,
                                now: string)
    ensures var keys := CheckEnvReport(nodeEnv, geminiKey, googleKey, now).apiKeysConfigured;
      GenerateGifts.ApiKeyConfigured(geminiKey, googleKey)
      <==> keys.geminiApiKey == "set" || keys.googleGenerativeAiApiKey == "set"
  {
  }
}
