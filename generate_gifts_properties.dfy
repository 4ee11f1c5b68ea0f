/** What `generateGiftIdeas` promises its caller, stage by stage. */
module GenerateGiftsProperties {
  import opened Wrappers
  import opened Json
  import opened Environment
  import Patterns
  import opened GenerateGifts

  // ---------------------------------------------------------------------
  // The fallback catalog

  /** A gift idea whose four required fields are non-empty is, as an object
      literal, an item the validation accepts. */
  lemma ToJsonHasRequiredFields(g: GiftIdea)
    requires g.name != "" && g.description != "" && g.reason != "" && g.priceRange != ""
    ensures HasRequiredFields(ToJson(g))
  {
  }

  /** The catalog has five entries, each with non-empty name,
      description, reason and price range. */
  lemma FallbackCatalogFilled()
    ensures |FallbackGiftIdeas| == 5
    ensures forall k :: 0 <= k < |FallbackGiftIdeas| ==>
      var g := FallbackGiftIdeas[k];
      g.name != "" && g.description != "" && g.reason != "" && g.priceRange != ""
  {
  }

  /** Gift ideas whose required fields are all non-empty become an array
      whose every element passes the field check. */
  lemma AllToJsonHasRequiredFields(gs: seq<GiftIdea>)
    requires forall k :: 0 <= k < |gs| ==>
      gs[k].name != "" && gs[k].description != "" && gs[k].reason != "" && gs[k].priceRange != ""
    ensures forall k :: 0 <= k < |AllToJson(gs)| ==> HasRequiredFields(AllToJson(gs)[k])
  {
    forall k | 0 <= k < |gs| ensures HasRequiredFields(AllToJson(gs)[k]) {
      ToJsonHasRequiredFields(gs[k]);
    }
  }

  /** The array every failure refers to has five elements and each would
      itself pass the validation of an AI reply. */
  lemma FallbackCatalogPassesValidation()
    ensures |Elements(FallbackCatalog)| == 5
    ensures forall k :: 0 <= k < |Elements(FallbackCatalog)| ==>
      HasRequiredFields(Elements(FallbackCatalog)[k])
  {
    FallbackCatalogFilled();
    AllToJsonHasRequiredFields(FallbackGiftIdeas);
  }

  // ---------------------------------------------------------------------
  // The prompt

  /** t occurs in s as a contiguous piece. */
  ghost predicate Contains(s: string, t: string)
  {
    exists k :: 0 <= k <= |s| - |t| && s[k..][..|t|] == t
  }

  /** A joined text is the pieces before k, then piece k, then the rest. */
  lemma {:induction false} JoinSplit(pieces: seq<string>, k: nat)
    requires k < |pieces|
    ensures Join(pieces) == Join(pieces[..k]) + pieces[k] + Join(pieces[k + 1..])
    decreases k
  {
    if k > 0 {
      JoinSplit(pieces[1..], k - 1);
      assert pieces[1..][..k - 1] == pieces[1..k];
      assert pieces[1..][k..] == pieces[k + 1..];
      assert pieces[..k] == [pieces[0]] + pieces[1..k];
      assert Join(pieces[..k]) == pieces[0] + Join(pieces[1..k]);
    } else {
      assert pieces[1..] == pieces[k + 1..];
    }
  }

  /** Every piece occurs in the joined text. */
  lemma JoinContainsPiece(pieces: seq<string>, k: nat)
    requires k < |pieces|
    ensures Contains(Join(pieces), pieces[k])
  {
    JoinSplit(pieces, k);
    var pre, post := Join(pieces[..k]), Join(pieces[k + 1..]);
    assert (pre + pieces[k] + post)[|pre|..][..|pieces[k]|] == pieces[k];
  }

  /** A text occurring in s still occurs once more text is appended. */
  lemma ContainsExtended(s: string, more: string, t: string)
    requires Contains(s, t)
    ensures Contains(s + more, t)
  {
    var k :| 0 <= k <= |s| - |t| && s[k..][..|t|] == t;
    assert (s + more)[k..][..|t|] == s[k..][..|t|];
  }

  /** Each piece of the head occurs in head + b + c + d. */
  lemma PieceSurvives(pieces: seq<string>, k: nat, b: string, c: string, d: string)
    requires k < |pieces|
    ensures Contains(Join(pieces) + b + c + d, pieces[k])
  {
    JoinContainsPiece(pieces, k);
    ContainsExtended(Join(pieces), b, pieces[k]);
    ContainsExtended(Join(pieces) + b, c, pieces[k]);
    ContainsExtended(Join(pieces) + b + c, d, pieces[k]);
  }

  /** The parts of a + b + c + d can be cut back out by position. */
  lemma FourParts(a: string, b: string, c: string, d: string)
    ensures var p := a + b + c + d;
      |a| + |c| + |d| <= |p|
      && p[..|a|] == a
      && p[|a|..|p| - |c| - |d|] == b
      && p[|p| - |c| - |d|..] == c + d
      && p[|p| - |d|..] == d
      && Contains(p, b)
  {
    var p := a + b + c + d;
    assert p[|a|..][..|b|] == b;
  }

  /** A filled-in template is its head, the instruction line, the reply
      format and the reply rules, and each can be cut back out of it by
      position. */
  lemma FillLayout(t: PromptTemplate, data: GiftFormData, isRegenerate: bool)
    ensures var p, h := Fill(t, data, isRegenerate), Join(HeadPieces(t, data));
      |h| + |t.format| + |t.rules| <= |p|
      && p[..|h|] == h
      && p[|h|..|p| - |t.format| - |t.rules|] == InstructionLine(t, isRegenerate)
      && p[|p| - |t.format| - |t.rules|..] == t.format + t.rules
  {
    FourParts(Join(HeadPieces(t, data)), InstructionLine(t, isRegenerate), t.format, t.rules);
  }

  /** All seven profile fields appear verbatim, each on its labelled line,
      whatever the template and the flag; the prompt sent is
      `Fill(GiftPrompt, data, isRegenerate)`. */
  lemma PromptListsProfile(t: PromptTemplate, data: GiftFormData, isRegenerate: bool)
    ensures var p := Fill(t, data, isRegenerate);
      Contains(p, Line("Name", data.recipientName))
      && Contains(p, Line("Age", data.age))
      && Contains(p, Line("Gender", data.gender))
      && Contains(p, Line("Relationship to me", data.relationship))
      && Contains(p, Line("Interests/Hobbies", data.interests))
      && Contains(p, Line("Budget", data.budget))
      && Contains(p, Line("Preferred Gift Type", data.preferredGiftType))
  {
    var pieces, line := HeadPieces(t, data), InstructionLine(t, isRegenerate);
    PieceSurvives(pieces, 1, line, t.format, t.rules);
    PieceSurvives(pieces, 2, line, t.format, t.rules);
    PieceSurvives(pieces, 3, line, t.format, t.rules);
    PieceSurvives(pieces, 4, line, t.format, t.rules);
    PieceSurvives(pieces, 5, line, t.format, t.rules);
    PieceSurvives(pieces, 6, line, t.format, t.rules);
    PieceSurvives(pieces, 7, line, t.format, t.rules);
  }

  /** The prompt carries the flag's sentence on a line of its own and ends
      with the template's reply rules, which for `GiftPrompt` ask for a
      bare JSON array starting with `[` and ending with `]`. */
  lemma PromptInstructs(t: PromptTemplate, data: GiftFormData, isRegenerate: bool)
    ensures Contains(Fill(t, data, isRegenerate), "      " + Instruction(t, isRegenerate) + "\n")
    ensures var p := Fill(t, data, isRegenerate);
      |t.rules| <= |p| && p[|p| - |t.rules|..] == t.rules
  {
    FourParts(Join(HeadPieces(t, data)), InstructionLine(t, isRegenerate), t.format, t.rules);
  }

  /** The two values of `isRegenerate` give prompts with the same head and
      the same tail; only the instruction line between them differs, holding
      the one sentence or the other. */
  lemma PromptsDifferOnlyInInstruction(t: PromptTemplate, data: GiftFormData)
    ensures var again, first, h, f, r := Fill(t, data, true), Fill(t, data, false),
                                         |Join(HeadPieces(t, data))|, |t.format|, |t.rules|;
      h + f + r <= |again| && h + f + r <= |first|
      && again[..h] == first[..h]
      && again[|again| - f - r..] == first[|first| - f - r..]
      && again[h..|again| - f - r] == "      " + t.regenerate + "\n"
      && first[h..|first| - f - r] == "      " + t.first + "\n"
  {
    FillLayout(t, data, true);
    FillLayout(t, data, false);
  }

  // ---------------------------------------------------------------------
  // After the race has settled

  /** Every result after the race is a success with no `error` and no
      `fallback` whose first item carries the four fields, or a failure with
      a message, `fallback: true` and the catalog. */
  lemma OutcomeEnvelope(outcome: AiOutcome, parse: string -> Option<JsonValue>)
    ensures var r := HandleOutcome(outcome, parse);
      (!r.success ==> IsFallback(r))
      && (r.success ==> r.error.None? && r.fallback.None? && r.data.Parsed?
                        && |r.data.items| > 0 && HasRequiredFields(r.data.items[0]))
  {
    if outcome.Replied? {
      match Candidate(outcome.text)
      case None =>
      case Some(jsonText) =>
        match Validate(parse(jsonText))
        case Accepted(items) =>
        case ParseFailed =>
        case InvalidFormat =>
        case MissingInfo =>
    }
  }

  /** A settled race succeeds exactly when the service replied, an array was
      found in the reply, it parses to a non-empty array and that array's
      first element has the four fields; `data` is then that array. */
  lemma OutcomeSuccessExactly(outcome: AiOutcome, parse: string -> Option<JsonValue>)
    ensures var r := HandleOutcome(outcome, parse);
      r.success <==>
        outcome.Replied? && Candidate(outcome.text).Some?
        && parse(Candidate(outcome.text).value).Some?
        && parse(Candidate(outcome.text).value).value.JArray?
        && |parse(Candidate(outcome.text).value).value.elems| > 0
        && HasRequiredFields(parse(Candidate(outcome.text).value).value.elems[0])
    ensures var r := HandleOutcome(outcome, parse);
      r.success ==>
        r == GenerationResult(true, None, None, Parsed(parse(Candidate(outcome.text).value).value.elems))
  {
  }

  /** How each rejection of the race is reported. A timeout reports the
      timer's message, not the "API request timed out" of the `.then`. */
  lemma ServiceFailures(outcome: AiOutcome, parse: string -> Option<JsonValue>)
    ensures outcome.Threw? && outcome.thrown.ErrorValue? ==>
      HandleOutcome(outcome, parse) == Failure("API Error: " + outcome.thrown.message)
    ensures outcome == Threw(NonErrorValue) ==>
      HandleOutcome(outcome, parse) == Failure(CommunicationMessage)
    ensures outcome.TimedOut? ==>
      HandleOutcome(outcome, parse) == Failure("API Error: " + TimeoutMessage)
    ensures outcome.TimedOut? ==>
      HandleOutcome(outcome, parse).error != Some("API Error: " + "API request timed out")
  {
  }

  /** The text handed to the parser. When the strict pattern matches, it is
      the leftmost (and there longest) strict match, whatever the loose
      pattern would find; only when no substring matches the strict pattern
      is the loose match used, which runs from the first `[` to the last
      `]`. There is no candidate exactly when no `]` follows the first `[`. */
  lemma CandidateIsStrictThenLoose(text: string)
    ensures Patterns.StrictMatch(text).Some? ==>
      var sp := Patterns.StrictMatch(text).value;
      Candidate(text) == Some(text[sp.start..sp.end])
      && Patterns.StrictLeftmostLongest(text, sp)
    ensures Patterns.StrictMatch(text).None? ==>
      (forall i, j :: !Patterns.StrictMatchAt(text, i, j))
      && Candidate(text) == (match Patterns.LooseMatch(text)
                             case Some(sp) => Some(text[sp.start..sp.end])
                             case None => None)
    ensures Candidate(text).None? <==>
      forall p :: 0 <= p < |text| && text[p] == '[' && '[' !in text[..p] ==> ']' !in text[p + 1..]
  {
    Patterns.StrictMatchIsLeftmostLongest(text);
    Patterns.LooseMatchIsFirstToLast(text);
    if Patterns.StrictMatch(text).Some? {
      Patterns.StrictWithinLoose(text);
    }
  }

  /** A reply in which no `]` follows the first `[` (in particular one with
      no `[` at all) gives the "response format was unexpected" failure, and
      the parser is not consulted. */
  lemma NoArrayInReply(text: string, parse: string -> Option<JsonValue>)
    requires forall p :: 0 <= p < |text| && text[p] == '[' && '[' !in text[..p] ==> ']' !in text[p + 1..]
    ensures HandleOutcome(Replied(text), parse) == Failure(NoArrayMessage)
  {
    CandidateIsStrictThenLoose(text);
  }

  /** The stage-specific outcomes of parsing and validating the candidate:
      a parse failure or a `null` first element, a non-array or empty array,
      a first element lacking a field, and the accepted array. */
  lemma ValidationOutcomes(text: string, parse: string -> Option<JsonValue>)
    requires Candidate(text).Some?
    ensures var r := HandleOutcome(Replied(text), parse);
      var parsed := parse(Candidate(text).value);
      (parsed.None? ==> r == Failure(ParseFailureMessage))
      && (parsed.Some? && (!parsed.value.JArray? || parsed.value.elems == []) ==>
            r == Failure(InvalidFormatMessage))
      && (parsed.Some? && parsed.value.JArray? && |parsed.value.elems| > 0 ==>
            var first := parsed.value.elems[0];
            (first.JNull? ==> r == Failure(ParseFailureMessage))
            && (!first.JNull? && !HasRequiredFields(first) ==> r == Failure(MissingInfoMessage))
            && (HasRequiredFields(first) ==> r == Success(parsed.value.elems)))
  {
  }

  /** Elements after the first are never inspected: two arrays with the same
      first element get the same verdict, up to the items carried. */
  lemma OnlyFirstItemChecked(first: JsonValue, rest1: seq<JsonValue>, rest2: seq<JsonValue>)
    ensures Validate(Some(JArray([first] + rest1))).Accepted?
            == Validate(Some(JArray([first] + rest2))).Accepted?
    ensures !Validate(Some(JArray([first] + rest1))).Accepted? ==>
            Validate(Some(JArray([first] + rest1))) == Validate(Some(JArray([first] + rest2)))
    ensures Validate(Some(JArray([first] + rest1))).Accepted? ==>
            Validate(Some(JArray([first] + rest1))).items == [first] + rest1
  {
  }

  /** `[{"name":"A","description":"d","reason":"r","priceRange":"$1"}]` */
  const SampleArray := "[{" + "\"name\":\"A\",\"description\":\"d\",\"reason\":\"r\",\"priceRange\":\"$1\"" + "}]"
  const SampleItem := JObject(map["name" := JString("A"), "description" := JString("d"),
                                  "reason" := JString("r"), "priceRange" := JString("$1")])

  /** The sample array has the strict pattern's shape from end to end. */
  lemma SampleIsStrict()
    ensures Patterns.StrictMatchAt(SampleArray, 0, |SampleArray|)
  {
    assert Patterns.AllSpace(SampleArray, 1, 1);
    assert Patterns.AllSpace(SampleArray, |SampleArray| - 1, |SampleArray| - 1);
    assert SampleArray[0] == '[' && SampleArray[1] == '{';
    assert SampleArray[|SampleArray| - 2] == '}' && SampleArray[|SampleArray| - 1] == ']';
  }

  /** An array of the strict shape, after prose with no `[` and before
      prose with no `}`, is exactly the text the action hands to the parser. */
  lemma EmbeddedIsCandidate(pre: string, arr: string, post: string)
    requires '[' !in pre && '}' !in post
    requires Patterns.StrictMatchAt(arr, 0, |arr|)
    ensures Candidate(pre + arr + post) == Some(arr)
  {
    Patterns.StrictMatchOfEmbedded(pre, arr, post);
    var text := pre + arr + post;
    assert text[|pre|..|pre| + |arr|] == arr;
  }

  /** Such an embedded array, when it parses to an array whose first object
      has the four fields, is returned as the success data, whatever prose
      surrounds it. */
  lemma EmbeddedArrayAccepted(pre: string, arr: string, post: string, items: seq<JsonValue>,
                              parse: string -> Option<JsonValue>)
    requires '[' !in pre && '}' !in post
    requires Patterns.StrictMatchAt(arr, 0, |arr|)
    requires parse(arr) == Some(JArray(items)) && |items| > 0 && HasRequiredFields(items[0])
    ensures HandleOutcome(Replied(pre + arr + post), parse) == Success(items)
  {
    EmbeddedIsCandidate(pre, arr, post);
  }

  /** The array `[{"name":"A",…,"priceRange":"$1"}]` inside any such prose,
      parsed to its one object, is returned as the success data. */
  lemma SampleArrayAccepted(pre: string, post: string, parse: string -> Option<JsonValue>)
    requires '[' !in pre && '}' !in post
    requires parse(SampleArray) == Some(JArray([SampleItem]))
    ensures HandleOutcome(Replied(pre + SampleArray + post), parse) == Success([SampleItem])
  {
    SampleIsStrict();
    assert HasRequiredFields(SampleItem);
    EmbeddedArrayAccepted(pre, SampleArray, post, [SampleItem], parse);
  }

  /** The seven fixed failure messages are pairwise distinct, so each of
      those failures names its stage. */
  lemma FailureMessagesDistinct()
    ensures |{MissingKeyMessage, NoArrayMessage, InvalidFormatMessage, MissingInfoMessage,
              ParseFailureMessage, CommunicationMessage, UnexpectedMessage}| == 7
  {
    assert |MissingKeyMessage| == 64 && |NoArrayMessage| == 80 && |InvalidFormatMessage| == 62;
    assert |MissingInfoMessage| == 66 && |ParseFailureMessage| == 50;
    assert |CommunicationMessage| == 60 && |UnexpectedMessage| == 75;
  }

  /** The message of an `Error` rejection or a timeout, "API Error: "
      followed by whatever the error says, is never one of the fixed
      messages: a transport failure is never mistaken for a failure of the
      key check, the extraction or the validation. */
  lemma ApiErrorIsNotAStageMessage(m: string)
    ensures "API Error: " + m !in {MissingKeyMessage, NoArrayMessage, InvalidFormatMessage,
                                   MissingInfoMessage, ParseFailureMessage, CommunicationMessage,
                                   UnexpectedMessage}
  {
    var e := "API Error: " + m;
    assert e[0] == 'A' && e[1] == 'P' && e[4] == 'E';
    assert MissingKeyMessage[4] == 'k';
    assert NoArrayMessage[0] == 'F' && ParseFailureMessage[0] == 'F' && CommunicationMessage[0] == 'F';
    assert InvalidFormatMessage[0] == 'T' && MissingInfoMessage[0] == 'T';
    assert UnexpectedMessage[1] == 'n';
  }

  // ---------------------------------------------------------------------
  // The whole action

  /** With neither key set the result is the missing-key failure, and it
      does not depend on the service or the parser: nothing is asked of
      either. */
  lemma MissingKeyShortCircuits(
    data: GiftFormData, isRegenerate: bool, geminiKey: EnvVar, googleKey: EnvVar,
    service1: string -> AiOutcome, parse1: string -> Option<JsonValue>,
    service2: string -> AiOutcome, parse2: string -> Option<JsonValue>)
    requires !IsSet(geminiKey) && !IsSet(googleKey)
    ensures GenerateGiftIdeas(data, isRegenerate, geminiKey, googleKey, service1, parse1)
            == Failure(MissingKeyMessage)
    ensures GenerateGiftIdeas(data, isRegenerate, geminiKey, googleKey, service1, parse1)
            == GenerateGiftIdeas(data, isRegenerate, geminiKey, googleKey, service2, parse2)
  {
  }

  /** Either key alone being set passes the check: the result is what the
      rest of the action makes of the service's answer to the prompt. */
  lemma EitherKeySuffices(
    data: GiftFormData, isRegenerate: bool, geminiKey: EnvVar, googleKey: EnvVar,
    service: string -> AiOutcome, parse: string -> Option<JsonValue>)
    requires IsSet(geminiKey) || IsSet(googleKey)
    ensures GenerateGiftIdeas(data, isRegenerate, geminiKey, googleKey, service, parse)
            == HandleOutcome(service(BuildPrompt(data, isRegenerate)), parse)
  {
  }

  /** Whatever the inputs, the action returns a success with no `error` and
      no `fallback` whose first item carries the four fields, or a failure
      with a message, `fallback: true` and exactly the catalog. */
  lemma EnvelopeInvariant(
    data: GiftFormData, isRegenerate: bool, geminiKey: EnvVar, googleKey: EnvVar,
    service: string -> AiOutcome, parse: string -> Option<JsonValue>)
    ensures var r := GenerateGiftIdeas(data, isRegenerate, geminiKey, googleKey, service, parse);
      (!r.success ==> IsFallback(r))
      && (r.success ==> r.error.None? && r.fallback.None? && r.data.Parsed?
                        && |r.data.items| > 0 && HasRequiredFields(r.data.items[0]))
  {
    if ApiKeyConfigured(geminiKey, googleKey) {
      OutcomeEnvelope(service(BuildPrompt(data, isRegenerate)), parse);
    }
  }
}
