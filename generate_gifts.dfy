/**
 * The server action `generateGiftIdeas`: the API-key check, the prompt, the
 * race against the 15-second timer (as its outcome), extraction of a JSON
 * array from the reply, shallow validation, and the result envelope with
 * its fixed fallback catalog.
 *
 * The AI service and `JSON.parse` are parameters: `service` maps the prompt
 * to how the race settled, `parse` is any partial parser of JSON text.
 */
module GenerateGifts {
  import opened Wrappers
  import opened Json
  import opened Environment
  import Patterns

  // ---------------------------------------------------------------------
  // Data model

  /** The recipient profile submitted by the form; every field is free text. */
  datatype GiftFormData = GiftFormData(
    recipientName: string,
    age: string,
    gender: string,
    relationship: string,
    interests: string,
    budget: string,
    preferredGiftType: string)

  /** One gift suggestion of the fallback catalog. */
  datatype GiftIdea = GiftIdea(
    name: string,
    description: string,
    reason: string,
    priceRange: string,
    whereToBuy: seq<string>,
    recommendedBrands: seq<string>)

  /** What the action returns. `error` and `fallback` are absent on success. */
  datatype GenerationResult = GenerationResult(
    success: bool,
    error: Option<string>,
    fallback: Option<bool>,
    data: GiftData)

  /** The array in `data`: the module-level catalog (the same array on every
      failure) or the array `JSON.parse` produced. */
  datatype GiftData = FallbackCatalog | Parsed(items: seq<JsonValue>)

  /** How `Promise.race` between the request and the timer settled. */
  datatype AiOutcome =
    | Replied(text: string)          // the request fulfilled with `{ text }`
    | Threw(thrown: Thrown)          // the request rejected
    | TimedOut                       // the timer rejected first

  /** A rejection value: an `Error` with its message, or anything else. */
  datatype Thrown = ErrorValue(message: string) | NonErrorValue

  // ---------------------------------------------------------------------
  // The fallback catalog

  const FallbackGiftIdeas: seq<GiftIdea> := [
    GiftIdea("Personalized Photo Album",
             "A custom photo album filled with memories.",
             "A thoughtful way to celebrate your relationship and shared memories.",
             "$25-$50",
             ["Shutterfly", "Artifact Uprising", "Etsy"],
             ["Shutterfly", "Artifact Uprising", "Mixbook"]),
    GiftIdea("Streaming Service Subscription",
             "A subscription to a premium streaming service.",
             "Perfect for entertainment lovers to enjoy their favorite shows and movies.",
             "$15-$20/month",
             ["Netflix", "Disney+", "HBO Max"],
             ["Netflix", "Disney+", "Hulu"]),
    GiftIdea("Gourmet Chocolate Box",
             "A selection of premium chocolates in an elegant gift box.",
             "A delicious treat that's perfect for chocolate lovers.",
             "$25-$50",
             ["Godiva", "Lindt", "Local Chocolate Shops"],
             ["Godiva", "Ghirardelli", "Lindt"]),
    GiftIdea("Wireless Earbuds",
             "High-quality wireless earbuds for music and calls.",
             "Great for music lovers and people on the go.",
             "$50-$150",
             ["Amazon", "Best Buy", "Target"],
             ["Apple", "Samsung", "Jabra"]),
    GiftIdea("Indoor Plant",
             "A low-maintenance indoor plant in a decorative pot.",
             "Brings life to any space and shows thoughtfulness.",
             "$15-$40",
             ["Local Nurseries", "The Sill", "Bloomscape"],
             ["The Sill", "Bloomscape", "Plants.com"])
  ]

  /** A list of names as a JSON array's elements. */
  function Strings(xs: seq<string>): (r: seq<JsonValue>)
    ensures |r| == |xs|
    ensures forall k :: 0 <= k < |xs| ==> r[k] == JString(xs[k])
  {
    seq(|xs|, k requires 0 <= k < |xs| => JString(xs[k]))
  }

  /** A gift idea as the object literal it is written as. */
  function ToJson(g: GiftIdea): (v: JsonValue)
    ensures Get(v, "name") == Found(JString(g.name))
    ensures Get(v, "description") == Found(JString(g.description))
    ensures Get(v, "reason") == Found(JString(g.reason))
    ensures Get(v, "priceRange") == Found(JString(g.priceRange))
    ensures Get(v, "whereToBuy") == Found(JArray(Strings(g.whereToBuy)))
    ensures Get(v, "recommendedBrands") == Found(JArray(Strings(g.recommendedBrands)))
  {
    JObject(map[
      "name" := JString(g.name),
      "description" := JString(g.description),
      "reason" := JString(g.reason),
      "priceRange" := JString(g.priceRange),
      "whereToBuy" := JArray(Strings(g.whereToBuy)),
      "recommendedBrands" := JArray(Strings(g.recommendedBrands))])
  }

  /** Gift ideas as the array of object literals they are written as. */
  function AllToJson(gs: seq<GiftIdea>): (r: seq<JsonValue>)
    ensures |r| == |gs|
    ensures forall k :: 0 <= k < |gs| ==> r[k] == ToJson(gs[k])
  {
    if gs == [] then [] else [ToJson(gs[0])] + AllToJson(gs[1..])
  }

  /** The elements of the array `data` refers to. */
  function Elements(d: GiftData): seq<JsonValue>
  {
    match d
    case FallbackCatalog => AllToJson(FallbackGiftIdeas)
    case Parsed(items) => items
  }

  // ---------------------------------------------------------------------
  // Envelopes and messages

  // Each message is written as its first word and the rest, which lets a
  // proof read its opening characters.
  const MissingKeyMessage := "API key" + " not configured. Please check your environment variables."
  const NoArrayMessage := "Failed" + " to parse gift ideas from AI response. The response format was unexpected."
  const InvalidFormatMessage := "The" + " AI generated an invalid response format. Please try again."
  const MissingInfoMessage := "The" + " AI response is missing required information. Please try again."
  const ParseFailureMessage := "Failed" + " to parse the AI response. Please try again."
  const CommunicationMessage := "Failed" + " to communicate with the AI service. Please try again."
  const UnexpectedMessage := "An" + " unexpected error occurred while generating gift ideas. Please try again."
  /** The message of the `Error` the timer rejects with. */
  const TimeoutMessage := "API request timed out after 15 seconds"

  /** A failure return: the stage's message, `fallback: true` and the catalog. */
  function Failure(message: string): GenerationResult
  {
    GenerationResult(false, Some(message), Some(true), FallbackCatalog)
  }

  /** The success return: the parsed array as `data`, nothing else. */
  function Success(items: seq<JsonValue>): GenerationResult
  {
    GenerationResult(true, None, None, Parsed(items))
  }

  /** A failure envelope as the type describes it: carries its message,
      `fallback: true` and exactly the catalog. */
  predicate IsFallback(r: GenerationResult)
  {
    !r.success && r.error.Some? && r.fallback == Some(true) && r.data == FallbackCatalog
  }

  // ---------------------------------------------------------------------
  // Stages

  /** Either environment variable being truthy lets the request go ahead. */
  predicate ApiKeyConfigured(geminiKey: EnvVar, googleKey: EnvVar)
  {
    IsSet(geminiKey) || IsSet(googleKey)
  }

  /** The fixed text of a prompt template: the opening, the blank line
      before the instruction, the two instruction sentences, the reply
      format and the closing reply rules. */
  datatype PromptTemplate = PromptTemplate(
    intro: string, gap: string, regenerate: string, first: string,
    format: string, rules: string)

  /** The sentence that depends on `isRegenerate`. */
  function Instruction(t: PromptTemplate, isRegenerate: bool): string
  {
    if isRegenerate then t.regenerate else t.first
  }

  /** A labelled line of the template, with the profile value verbatim. */
  function Line(caption: string, value: string): string
  {
    "      " + caption + ": " + value + "\n"
  }

  /** The template up to the instruction: the opening text, one piece per
      labelled profile line, and a blank line. */
  function HeadPieces(t: PromptTemplate, data: GiftFormData): seq<string>
  {
    [ t.intro,
      Line("Name", data.recipientName),
      Line("Age", data.age),
      Line("Gender", data.gender),
      Line("Relationship to me", data.relationship),
      Line("Interests/Hobbies", data.interests),
      Line("Budget", data.budget),
      Line("Preferred Gift Type", data.preferredGiftType),
      t.gap ]
  }

  /** The line that carries the sentence chosen by `isRegenerate`. */
  function InstructionLine(t: PromptTemplate, isRegenerate: bool): string
  {
    "      " + Instruction(t, isRegenerate) + "\n"
  }

  /** The pieces of a text, one after another. */
  function Join(pieces: seq<string>): string
  {
    if pieces == [] then "" else pieces[0] + Join(pieces[1..])
  }

  /** A template filled in with a profile and the flag. */
  function Fill(t: PromptTemplate, data: GiftFormData, isRegenerate: bool): string
  {
    Join(HeadPieces(t, data)) + InstructionLine(t, isRegenerate) + t.format + t.rules
  }

  /** The template literal of lines 79-110, cut at its placeholders. */
  const GiftPrompt := PromptTemplate(
    "\n      I need birthday gift ideas for someone with the following details:\n      \n",
    "      \n",
    "Please suggest 5 COMPLETELY DIFFERENT gift ideas than you might have suggested before. Be creative and think outside the box.",
    "Please suggest 5 specific gift ideas that would be meaningful and appropriate.",
    "      \n"
    + "      For each gift idea, provide:\n"
    + "      1. The name of the gift\n"
    + "      2. A brief description (1-2 sentences)\n"
    + "      3. Why it's appropriate for this person\n"
    + "      4. An estimated price range\n"
    + "      5. 2-3 specific stores or websites where this gift can be purchased\n"
    + "      6. 2-3 recommended brands that make high-quality versions of this gift\n"
    + "      \n"
    + "      Format the response as a JSON array with objects containing fields: \n"
    + "      - name (string)\n"
    + "      - description (string)\n"
    + "      - reason (string)\n"
    + "      - priceRange (string)\n"
    + "      - whereToBuy (array of store names)\n"
    + "      - recommendedBrands (array of brand names)\n"
    + "\n",
    "      IMPORTANT: Your response must be a valid JSON array that can be parsed with JSON.parse().\n"
    + "      Start your response with [ and end with ].\n"
    + "    ")

  /** The prompt sent to the model. */
  function BuildPrompt(data: GiftFormData, isRegenerate: bool): string
  {
    Fill(GiftPrompt, data, isRegenerate)
  }

  /** The value the race rejects with, if it rejects. On a timeout it is the
      timer's own `Error`: the `.then` attached to the timer runs only on
      fulfilment, which never happens, so its "API request timed out"
      error is never thrown. */
  function Rejection(outcome: AiOutcome): (t: Option<Thrown>)
    ensures t.None? <==> outcome.Replied?
    ensures outcome.Threw? ==> t == Some(outcome.thrown)
    ensures outcome.TimedOut? ==> t == Some(ErrorValue(TimeoutMessage))
  {
    match outcome
    case Replied(_) => None
    case Threw(thrown) => Some(thrown)
    case TimedOut => Some(ErrorValue(TimeoutMessage))
  }

  /** The error message of the catch around the request. */
  function ApiErrorMessage(t: Thrown): string
  {
    match t
    case ErrorValue(m) => "API Error: " + m
    case NonErrorValue => CommunicationMessage
  }

  /** `jsonMatch[0]`: the strict pattern's match, or else the loose one's. */
  function Candidate(text: string): Option<string>
  {
    match Patterns.StrictMatch(text)
    case Some(sp) => Some(text[sp.start..sp.end])
    case None =>
      match Patterns.LooseMatch(text)
      case Some(sp) => Some(text[sp.start..sp.end])
      case None => None
  }

  /** The four required fields of the first item are all truthy. */
  predicate HasRequiredFields(item: JsonValue)
  {
    AccessTruthy(Get(item, "name")) && AccessTruthy(Get(item, "description"))
    && AccessTruthy(Get(item, "reason")) && AccessTruthy(Get(item, "priceRange"))
  }

  /** What the inner `try` makes of the parser's result. */
  datatype Verdict = Accepted(items: seq<JsonValue>) | ParseFailed | InvalidFormat | MissingInfo

  /** Shallow validation. A read of `firstItem.name` on `null` throws inside
      the same `try` as `JSON.parse`, so it is a parse failure too; once that
      read succeeds, the other three cannot throw. */
  function Validate(parsed: Option<JsonValue>): Verdict
  {
    match parsed
    case None => ParseFailed
    case Some(v) =>
      if !v.JArray? || |v.elems| == 0 then InvalidFormat
      else if Get(v.elems[0], "name").TypeError? then ParseFailed
      else if !HasRequiredFields(v.elems[0]) then MissingInfo
      else Accepted(v.elems)
  }

  /** The envelope each verdict returns. */
  function VerdictResult(verdict: Verdict): GenerationResult
  {
    match verdict
    case Accepted(items) => Success(items)
    case ParseFailed => Failure(ParseFailureMessage)
    case InvalidFormat => Failure(InvalidFormatMessage)
    case MissingInfo => Failure(MissingInfoMessage)
  }

  /** Everything after the race settled with a reply. */
  function ReplyResult(text: string, parse: string -> Option<JsonValue>): GenerationResult
  {
    match Candidate(text)
    case None => Failure(NoArrayMessage)
    case Some(jsonText) => VerdictResult(Validate(parse(jsonText)))
  }

  /** The inner `try` around the request: what the action returns once the
      race has settled. */
  function HandleOutcome(outcome: AiOutcome, parse: string -> Option<JsonValue>): GenerationResult
  {
    match Rejection(outcome)
    case Some(thrown) => Failure(ApiErrorMessage(thrown))
    case None => ReplyResult(outcome.text, parse)
  }

  /** `generateGiftIdeas(data, isRegenerate)`, with the two environment
      variables, the AI service and the JSON parser as inputs. The source's
      default `isRegenerate = false` is the call with `isRegenerate == false`. */
  function GenerateGiftIdeas(
    data: GiftFormData, isRegenerate: bool,
    geminiKey: EnvVar, googleKey: EnvVar,
    service: string -> AiOutcome, parse: string -> Option<JsonValue>): GenerationResult
  {
    if !ApiKeyConfigured(geminiKey, googleKey) then Failure(MissingKeyMessage)
    else HandleOutcome(service(BuildPrompt(data, isRegenerate)), parse)
  }

  /** The outermost catch. With the profile fields typed as strings, nothing
      in lines 61-113 of the action throws, so `GenerateGiftIdeas` never
      reaches it and nothing calls it; it is kept for the shape of its
      envelope. */
  function BoundaryFailure(t: Thrown): (r: GenerationResult)
    ensures IsFallback(r)
    ensures t.ErrorValue? ==> r.error == Some("Error: " + t.message)
    ensures t.NonErrorValue? ==> r.error == Some(UnexpectedMessage)
  {
    match t
    case ErrorValue(m) => Failure("Error: " + m)
    case NonErrorValue => Failure(UnexpectedMessage)
  }
}
