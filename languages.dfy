/**
 * Language resolution and selection cleanup of the background script: the
 * browser's page and text language guesses, the cleanup of language lists
 * (obsolete ISO 639-1 codes, installed voices), the choice of one effective
 * language per selection, and the fallback messages of `cleanupSelections`.
 */
module Languages {

  import opened Wrappers
  import opened Seqs
  import opened Strings

  function AsJs(o: Option<string>): JsValue
  {
    match o
    case None => Null
    case Some(s) => Str(s)
  }

  /** isUndefinedOrNullOrEmptyOrWhitespace: anything but a string with a non-white-space character. */
  function IsUndefinedOrNullOrEmptyOrWhitespace(v: JsValue): (r: bool)
    ensures r <==> !(v.Str? && IsNotBlank(v.s))
  {
    !(v.Str? && |v.s| > 0 && |Trim(v.s)| > 0)
  }

  /**
   * isValidString, the negation of isUndefinedOrNullOrEmptyOrWhitespace:
   * stated through the characterisation proved above rather than through `trim`.
   */
  predicate IsValidString(v: JsValue)
  {
    v.Str? && IsNotBlank(v.s)
  }

  /** detectPageLanguage: the browser's "und" (undetermined), an empty answer or a non-string mean no language. */
  function DetectPageLanguage(language: JsValue): (r: Option<string>)
    ensures r.Some? <==> language.Str? && language.s != "" && language.s != "und"
    ensures r.Some? ==> r.value == language.s
  {
    if language.Undefined? || language.Null? || (language.Str? && language.s == "") || !language.Str? || language.s == "und" then None
    else Some(language.s)
  }

  /**
   * The answer of the browser's text language detector: whether it is
   * reliable, and the `language` fields of its `languages` list (absent when
   * the list is missing).
   */
  datatype TextDetection = TextDetection(isReliable: bool, languages: Option<seq<JsValue>>)

  /**
   * detectTextLanguage: the detector's first language when the browser can
   * detect text languages, the answer is reliable and the first language is a
   * non-blank string other than "und"; otherwise no language.
   */
  function DetectTextLanguage(canDetect: bool, result: TextDetection): (r: Option<string>)
    ensures r.Some? <==>
      && canDetect && result.isReliable && result.languages.Some? && |result.languages.value| > 0
      && IsValidString(result.languages.value[0]) && result.languages.value[0].s != "und"
    ensures r.Some? ==> r.value == result.languages.value[0].s && IsNotBlank(r.value) && r.value != "und"
  {
    if !canDetect then None
    else if
      || !result.isReliable
      || result.languages.None?
      || !(|result.languages.value| > 0)
      || !result.languages.value[0].Str?
      || !(|Trim(result.languages.value[0].s)| > 0)
      || result.languages.value[0].s == "und"
    then None
    else Some(result.languages.value[0].s)
  }

  /** The ISO 639-1 codes of 1988 that the 2002 edition replaced. */
  predicate IsObsoleteCode(language: string)
  {
    language == "in" || language == "iw" || language == "ji"
  }

  /** mapIso639Aliases: an obsolete code becomes its current one (in to id, iw to he, ji to yi); any other language stays. */
  function MapIso639Aliases(language: string): (r: string)
    ensures !IsObsoleteCode(r)
    ensures !IsObsoleteCode(language) ==> r == language
    ensures IsNotBlank(language) ==> IsNotBlank(r)
  {
    if language == "in" then LetterIsNotWhitespace("id"[0]); "id"
    else if language == "iw" then LetterIsNotWhitespace("he"[0]); "he"
    else if language == "ji" then LetterIsNotWhitespace("yi"[0]); "yi"
    else language
  }

  datatype Voice = Voice(name: string, lang: string)

  /** isKnownVoiceLanguage: some installed voice's language tag starts with the language. */
  predicate IsKnownVoiceLanguage(voices: seq<Voice>, language: string)
  {
    exists i :: 0 <= i < |voices| && StartsWith(voices[i].lang, language)
  }

  /** isKnownVoiceLanguage over the installed voices, as the filter callback. */
  function KnownTo(voices: seq<Voice>): string -> bool
  {
    language => IsKnownVoiceLanguage(voices, language)
  }

  /** `filter(isValidString)`, reading out the strings that pass. */
  function ValidStrings(values: seq<JsValue>): (r: seq<string>)
    ensures forall i :: 0 <= i < |r| ==> IsNotBlank(r[i])
  {
    if values == [] then []
    else (if IsValidString(values[0]) then [values[0].s] else []) + ValidStrings(values[1..])
  }

  function MapAliases(languages: seq<string>): (r: seq<string>)
    ensures |r| == |languages|
    ensures forall i :: 0 <= i < |r| ==> r[i] == MapIso639Aliases(languages[i])
  {
    seq(|languages|, i requires 0 <= i < |languages| => MapIso639Aliases(languages[i]))
  }

  /**
   * cleanupLanguagesArray: a missing list counts as empty; blank and
   * non-string entries are dropped, obsolete codes replaced, and languages no
   * installed voice speaks dropped.
   */
  function CleanupLanguagesArray(languages: Option<seq<JsValue>>, voices: seq<Voice>): (cleaned: seq<string>)
    ensures forall i :: 0 <= i < |cleaned| ==>
      IsNotBlank(cleaned[i]) && !IsObsoleteCode(cleaned[i]) && IsKnownVoiceLanguage(voices, cleaned[i])
  {
    var aliased := MapAliases(ValidStrings(if languages.Some? then languages.value else []));
    var cleaned := Filter(aliased, KnownTo(voices));
    FilterMembers(aliased, KnownTo(voices));
    forall i | 0 <= i < |cleaned|
      ensures IsNotBlank(cleaned[i]) && !IsObsoleteCode(cleaned[i])
    {
      var j :| 0 <= j < |aliased| && aliased[j] == cleaned[i];
    }
    cleaned
  }

  /** A list entry that makes it through cleanupLanguagesArray. */
  predicate Survives(voices: seq<Voice>, v: JsValue)
  {
    IsValidString(v) && IsKnownVoiceLanguage(voices, MapIso639Aliases(v.s))
  }

  lemma MapAliasesConcat(a: seq<string>, b: seq<string>)
    ensures MapAliases(a + b) == MapAliases(a) + MapAliases(b)
  {
    var l, r := MapAliases(a + b), MapAliases(a) + MapAliases(b);
    forall i | 0 <= i < |l| ensures l[i] == r[i] {
      if i < |a| { assert (a + b)[i] == a[i]; } else { assert (a + b)[i] == b[i - |a|]; }
    }
  }

  lemma ValidStringsCons(v: JsValue, rest: seq<JsValue>)
    ensures ValidStrings([v] + rest) == (if IsValidString(v) then [v.s] else []) + ValidStrings(rest)
  {
    assert ([v] + rest)[0] == v && ([v] + rest)[1..] == rest;
  }

  /** Cleaning a list is cleaning its first entry and then the rest. */
  lemma CleanupCons(v: JsValue, rest: seq<JsValue>, voices: seq<Voice>)
    ensures CleanupLanguagesArray(Some([v] + rest), voices) ==
      (if Survives(voices, v) then [MapIso639Aliases(v.s)] else []) + CleanupLanguagesArray(Some(rest), voices)
  {
    var head := if IsValidString(v) then [v.s] else [];
    ValidStringsCons(v, rest);
    MapAliasesConcat(head, ValidStrings(rest));
    FilterConcat(MapAliases(head), MapAliases(ValidStrings(rest)), KnownTo(voices));
    if IsValidString(v) {
      assert MapAliases(head) == [MapIso639Aliases(v.s)];
      FilterCons(MapIso639Aliases(v.s), [], KnownTo(voices));
    }
  }

  function SurvivesFor(voices: seq<Voice>): JsValue -> bool
  {
    v => Survives(voices, v)
  }

  /** The language an entry contributes when it survives. */
  function AliasedText(v: JsValue): string
  {
    if v.Str? then MapIso639Aliases(v.s) else ""
  }

  /** The filter, map, filter chain keeps exactly the surviving entries, aliased, in list order. */
  lemma {:induction false} CleanupIsFilterMap(values: seq<JsValue>, voices: seq<Voice>)
    ensures CleanupLanguagesArray(Some(values), voices) == FilterMap(values, SurvivesFor(voices), AliasedText)
  {
    if values != [] {
      assert values == [values[0]] + values[1..];
      CleanupCons(values[0], values[1..], voices);
      CleanupIsFilterMap(values[1..], voices);
    }
  }

  lemma CleanupFirst(values: seq<JsValue>, voices: seq<Voice>, k: nat)
    requires k < |values| && Survives(voices, values[k])
    requires forall j :: 0 <= j < k ==> !Survives(voices, values[j])
    ensures var cleaned := CleanupLanguagesArray(Some(values), voices);
      cleaned != [] && cleaned[0] == AliasedText(values[k])
  {
    CleanupIsFilterMap(values, voices);
    FilterMapFirst(values, SurvivesFor(voices), AliasedText, k);
  }

  /** Nothing is left exactly when no entry survives. */
  lemma CleanupEmpty(values: seq<JsValue>, voices: seq<Voice>)
    ensures CleanupLanguagesArray(Some(values), voices) == [] <==> forall j :: 0 <= j < |values| ==> !Survives(voices, values[j])
  {
    CleanupIsFilterMap(values, voices);
    FilterMapEmpty(values, SurvivesFor(voices), AliasedText);
  }

  /** Languages as the string values of a JavaScript array. */
  function AsJsStrings(languages: seq<string>): (values: seq<JsValue>)
    ensures |values| == |languages|
    ensures forall i :: 0 <= i < |values| ==> values[i] == Str(languages[i])
  {
    seq(|languages|, i requires 0 <= i < |languages| => Str(languages[i]))
  }

  /** A list of already cleaned languages comes out of a second cleanup unchanged. */
  lemma CleanupOfCleaned(languages: seq<string>, voices: seq<Voice>)
    requires forall i :: 0 <= i < |languages| ==>
      IsNotBlank(languages[i]) && !IsObsoleteCode(languages[i]) && IsKnownVoiceLanguage(voices, languages[i])
    ensures CleanupLanguagesArray(Some(AsJsStrings(languages)), voices) == languages
  {
    var values := AsJsStrings(languages);
    CleanupIsFilterMap(values, voices);
    forall j | 0 <= j < |values| ensures SurvivesFor(voices)(values[j]) {
      assert MapIso639Aliases(languages[j]) == languages[j];
    }
    FilterMapAll(values, SurvivesFor(voices), AliasedText);
    var mapped := seq(|values|, i requires 0 <= i < |values| => AliasedText(values[i]));
    forall i | 0 <= i < |values| ensures mapped[i] == languages[i] {
      assert AliasedText(values[i]) == MapIso639Aliases(languages[i]);
    }
  }

  /** Cleaning is idempotent: a cleaned list (such as the parent elements' languages) survives another cleanup. */
  lemma CleanupIdempotent(languages: Option<seq<JsValue>>, voices: seq<Voice>)
    ensures var cleaned := CleanupLanguagesArray(languages, voices);
      CleanupLanguagesArray(Some(AsJsStrings(cleaned)), voices) == cleaned
  {
    CleanupOfCleaned(CleanupLanguagesArray(languages, voices), voices);
  }

  /** getMoreSpecificLanguagesWithPrefix: a longer tag with the given prefix, such as "en-US" for "en". */
  predicate IsMoreSpecific(language: string, prefix: string)
  {
    StartsWith(language, prefix) && |language| > |prefix|
  }

  function MoreSpecificThan(prefix: string): string -> bool
  {
    language => IsMoreSpecific(language, prefix)
  }

  /**
   * The choice at the end of setEffectiveLanguage: the first cleaned language
   * is the primary one; the first entry more specific than it wins, and
   * otherwise the primary itself; no language when nothing was left.
   */
  function PickEffectiveLanguage(cleaned: seq<string>): (r: Option<string>)
    requires forall i :: 0 <= i < |cleaned| ==> cleaned[i] != ""
    ensures r.None? <==> cleaned == []
    ensures r.Some? ==> StartsWith(r.value, cleaned[0]) && exists k :: 0 <= k < |cleaned| && cleaned[k] == r.value
  {
    if cleaned == [] then None
    else
      var primary := cleaned[0];
      var moreSpecific := Filter(cleaned, MoreSpecificThan(primary));
      if moreSpecific != [] then
        FilterMembers(cleaned, MoreSpecificThan(primary));
        var k :| 0 <= k < |cleaned| && cleaned[k] == moreSpecific[0];
        Some(moreSpecific[0])
      else
        assert cleaned[0] == primary;
        Some(primary)
  }

  /** The entry chosen is the first one more specific than the primary language, if there is one. */
  lemma PickFirstMoreSpecific(cleaned: seq<string>, k: nat)
    requires forall i :: 0 <= i < |cleaned| ==> cleaned[i] != ""
    requires k < |cleaned| && IsMoreSpecific(cleaned[k], cleaned[0])
    requires forall j :: 0 <= j < k ==> !IsMoreSpecific(cleaned[j], cleaned[0])
    ensures PickEffectiveLanguage(cleaned) == Some(cleaned[k])
  {
    FilterFirst(cleaned, MoreSpecificThan(cleaned[0]), k);
  }

  /** Without a more specific entry the primary language is chosen. */
  lemma PickPrimary(cleaned: seq<string>)
    requires forall i :: 0 <= i < |cleaned| ==> cleaned[i] != ""
    requires cleaned != []
    requires forall j :: 0 <= j < |cleaned| ==> !IsMoreSpecific(cleaned[j], cleaned[0])
    ensures PickEffectiveLanguage(cleaned) == Some(cleaned[0])
  {
    FilterNone(cleaned, MoreSpecificThan(cleaned[0]));
  }

  /** One frame's selection as the content script reports it, or a value that is not an object. */
  datatype FrameSelection =
    | NotAnObject
    | Selection(text: JsValue, htmlTagLanguage: JsValue, parentElementsLanguages: Option<seq<JsValue>>)

  predicate IsNonNullObject(selection: FrameSelection)
  {
    selection.Selection?
  }

  predicate HasValidText(selection: FrameSelection)
  {
    selection.Selection? && IsValidString(selection.text)
  }

  /** The language candidates in order of precedence. */
  function Candidates(detectedTextLanguage: Option<string>, parentElementsLanguages: seq<string>,
                      htmlTagLanguage: JsValue, detectedPageLanguage: Option<string>): (candidates: seq<JsValue>)
    ensures |candidates| == 4
  {
    [ AsJs(detectedTextLanguage),
      if parentElementsLanguages != [] then Str(parentElementsLanguages[0]) else Null,
      htmlTagLanguage,
      AsJs(detectedPageLanguage) ]
  }

  /**
   * setEffectiveLanguage for one selection: the parent elements' languages are
   * cleaned, the four candidates cleaned, and the effective language picked.
   */
  function SetEffectiveLanguage(selection: FrameSelection, detectedTextLanguage: Option<string>,
                                voices: seq<Voice>, detectedPageLanguage: Option<string>): (r: Option<string>)
    requires selection.Selection?
    ensures r.Some? ==> IsNotBlank(r.value) && !IsObsoleteCode(r.value) && IsKnownVoiceLanguage(voices, r.value)
  {
    var parents := CleanupLanguagesArray(selection.parentElementsLanguages, voices);
    var candidates := Candidates(detectedTextLanguage, parents, selection.htmlTagLanguage, detectedPageLanguage);
    var cleaned := CleanupLanguagesArray(Some(candidates), voices);
    PickEffectiveLanguage(cleaned)
  }

  /**
   * The effective language extends (or equals) the language of the first
   * candidate that survives cleanup, and there is none exactly when no
   * candidate survives.
   */
  lemma EffectiveLanguagePrecedence(selection: FrameSelection, detectedTextLanguage: Option<string>,
                                    voices: seq<Voice>, detectedPageLanguage: Option<string>, k: nat)
    requires selection.Selection?
    requires var candidates := Candidates(detectedTextLanguage, CleanupLanguagesArray(selection.parentElementsLanguages, voices),
                                          selection.htmlTagLanguage, detectedPageLanguage);
      && k < 4 && Survives(voices, candidates[k])
      && forall j :: 0 <= j < k ==> !Survives(voices, candidates[j])
    ensures var candidates := Candidates(detectedTextLanguage, CleanupLanguagesArray(selection.parentElementsLanguages, voices),
                                         selection.htmlTagLanguage, detectedPageLanguage);
      var r := SetEffectiveLanguage(selection, detectedTextLanguage, voices, detectedPageLanguage);
      r.Some? && StartsWith(r.value, MapIso639Aliases(candidates[k].s))
  {
    var candidates := Candidates(detectedTextLanguage, CleanupLanguagesArray(selection.parentElementsLanguages, voices),
                                 selection.htmlTagLanguage, detectedPageLanguage);
    CleanupFirst(candidates, voices, k);
  }

  /** No effective language exactly when none of the four candidates survives cleanup. */
  lemma NoEffectiveLanguage(selection: FrameSelection, detectedTextLanguage: Option<string>,
                            voices: seq<Voice>, detectedPageLanguage: Option<string>)
    requires selection.Selection?
    ensures var candidates := Candidates(detectedTextLanguage, CleanupLanguagesArray(selection.parentElementsLanguages, voices),
                                         selection.htmlTagLanguage, detectedPageLanguage);
      SetEffectiveLanguage(selection, detectedTextLanguage, voices, detectedPageLanguage).None? <==>
        forall j :: 0 <= j < 4 ==> !Survives(voices, candidates[j])
  {
    var candidates := Candidates(detectedTextLanguage, CleanupLanguagesArray(selection.parentElementsLanguages, voices),
                                 selection.htmlTagLanguage, detectedPageLanguage);
    CleanupEmpty(candidates, voices);
  }

  /** trimText: the selection with white space trimmed from both ends of its text. */
  function TrimText(selection: FrameSelection): (r: FrameSelection)
    requires HasValidText(selection)
    ensures HasValidText(r) && r.text.s == Trim(selection.text.s)
    ensures r.htmlTagLanguage == selection.htmlTagLanguage && r.parentElementsLanguages == selection.parentElementsLanguages
  {
    selection.(text := Str(Trim(selection.text.s)))
  }

  function TrimTexts(selections: seq<FrameSelection>): (r: seq<FrameSelection>)
    requires forall i :: 0 <= i < |selections| ==> HasValidText(selections[i])
    ensures |r| == |selections|
    ensures forall i :: 0 <= i < |r| ==> r[i] == TrimText(selections[i])
  {
    seq(|selections|, i requires 0 <= i < |selections| => TrimText(selections[i]))
  }

  /**
   * The first stage of cleanupSelections: non-objects and selections whose
   * text is not a non-blank string are dropped, and the texts are trimmed.
   */
  function SelectionsWithValidText(selections: seq<FrameSelection>): (r: seq<FrameSelection>)
    ensures forall i :: 0 <= i < |r| ==> HasValidText(r[i])
  {
    var objects := Filter(selections, IsNonNullObject);
    var withText := Filter(objects, HasValidText);
    FilterKept(objects, HasValidText);
    var trimmed := TrimTexts(withText);
    FilterAll(trimmed, HasValidText);
    Filter(trimmed, HasValidText)
  }

  /** The texts kept have no white space left at either end. */
  lemma SelectedTextsAreTrimmed(selections: seq<FrameSelection>)
    ensures var r := SelectionsWithValidText(selections);
      forall i :: 0 <= i < |r| ==> Trim(r[i].text.s) == r[i].text.s
  {
    var withText := Filter(Filter(selections, IsNonNullObject), HasValidText);
    FilterKept(Filter(selections, IsNonNullObject), HasValidText);
    var trimmed := TrimTexts(withText);
    FilterAll(trimmed, HasValidText);
    forall i | 0 <= i < |trimmed| ensures Trim(trimmed[i].text.s) == trimmed[i].text.s {
      TrimIdempotent(withText[i].text.s);
    }
  }

  /**
   * The selections kept are exactly those with a non-blank text, trimmed, in
   * their original order: the second text check after trimming drops nothing.
   */
  lemma ValidSelectionsInOrder(selections: seq<FrameSelection>)
    ensures var valid := Filter(selections, HasValidText);
      && (forall i :: 0 <= i < |valid| ==> HasValidText(valid[i]))
      && SelectionsWithValidText(selections) == TrimTexts(valid)
  {
    FilterWeakerFirst(selections, IsNonNullObject, HasValidText);
    var valid := Filter(selections, HasValidText);
    assert Filter(Filter(selections, IsNonNullObject), HasValidText) == valid;
    FilterKept(selections, HasValidText);
    FilterAll(TrimTexts(valid), HasValidText);
  }

  /** What is spoken: a text and the language to speak it in (mapResults). */
  datatype SpeechRequest = SpeechRequest(text: string, effectiveLanguage: string)

  /** The two fixed messages of cleanupSelections, with their texts and languages from the browser's translations. */
  datatype Messages = Messages(noTextSelected: SpeechRequest, noVoiceForLanguageDetected: SpeechRequest)

  /**
   * A speech request for a selection: the "no voice for language" message,
   * or the selection's text in the language of an installed voice.
   */
  predicate SpeaksSelection(r: SpeechRequest, selection: FrameSelection, voices: seq<Voice>, messages: Messages)
  {
    || r == messages.noVoiceForLanguageDetected
    || (HasValidText(selection) && r.text == selection.text.s && IsKnownVoiceLanguage(voices, r.effectiveLanguage))
  }

  /**
   * One cleaned selection: its text language is detected, its effective
   * language set, and with no effective language it becomes the "no voice
   * for language" message.
   */
  function ResolveSelection(selection: FrameSelection, voices: seq<Voice>, detectedPageLanguage: Option<string>,
                            canDetectText: bool, textDetection: string -> TextDetection, messages: Messages): (r: SpeechRequest)
    requires HasValidText(selection)
    ensures SpeaksSelection(r, selection, voices, messages)
  {
    var detectedTextLanguage := DetectTextLanguage(canDetectText, textDetection(selection.text.s));
    match SetEffectiveLanguage(selection, detectedTextLanguage, voices, detectedPageLanguage)
    case None => messages.noVoiceForLanguageDetected
    case Some(language) => SpeechRequest(selection.text.s, language)
  }

  /** The selections resolved one by one, in order (the chain of `map`s of cleanupSelections). */
  function ResolveSelections(valid: seq<FrameSelection>, voices: seq<Voice>, detectedPageLanguage: Option<string>,
                             canDetectText: bool, textDetection: string -> TextDetection, messages: Messages): (r: seq<SpeechRequest>)
    requires forall i :: 0 <= i < |valid| ==> HasValidText(valid[i])
    ensures |r| == |valid|
    ensures forall i :: 0 <= i < |valid| ==>
      r[i] == ResolveSelection(valid[i], voices, detectedPageLanguage, canDetectText, textDetection, messages)
  {
    seq(|valid|, i requires 0 <= i < |valid| =>
      ResolveSelection(valid[i], voices, detectedPageLanguage, canDetectText, textDetection, messages))
  }

  /**
   * cleanupSelections: one speech request per selection with valid text, in
   * order, each the resolution of its own selection, and the "no text
   * selected" message alone when there is none.
   */
  function CleanupSelections(voices: seq<Voice>, detectedPageLanguage: Option<string>, selections: seq<FrameSelection>,
                             canDetectText: bool, textDetection: string -> TextDetection, messages: Messages): (r: seq<SpeechRequest>)
    ensures |r| >= 1
    ensures SelectionsWithValidText(selections) == [] ==> r == [messages.noTextSelected]
    ensures var valid := SelectionsWithValidText(selections);
      valid != [] ==> |r| == |valid| && forall i :: 0 <= i < |r| ==>
        r[i] == ResolveSelection(valid[i], voices, detectedPageLanguage, canDetectText, textDetection, messages)
        && SpeaksSelection(r[i], valid[i], voices, messages)
  {
    var valid := SelectionsWithValidText(selections);
    var resolved := ResolveSelections(valid, voices, detectedPageLanguage, canDetectText, textDetection, messages);
    if |resolved| == 0 then [messages.noTextSelected] else resolved
  }

  /**
   * The request for a selection whose first surviving candidate is the k-th
   * is its own text, in a language that extends that candidate's alias.
   */
  lemma ResolvedLanguagePrecedence(selection: FrameSelection, voices: seq<Voice>, detectedPageLanguage: Option<string>,
                                   canDetectText: bool, textDetection: string -> TextDetection, messages: Messages, k: nat)
    requires HasValidText(selection)
    requires var candidates := Candidates(DetectTextLanguage(canDetectText, textDetection(selection.text.s)),
                                          CleanupLanguagesArray(selection.parentElementsLanguages, voices),
                                          selection.htmlTagLanguage, detectedPageLanguage);
      && k < 4 && Survives(voices, candidates[k])
      && forall j :: 0 <= j < k ==> !Survives(voices, candidates[j])
    ensures var candidates := Candidates(DetectTextLanguage(canDetectText, textDetection(selection.text.s)),
                                         CleanupLanguagesArray(selection.parentElementsLanguages, voices),
                                         selection.htmlTagLanguage, detectedPageLanguage);
      var r := ResolveSelection(selection, voices, detectedPageLanguage, canDetectText, textDetection, messages);
      r.text == selection.text.s && StartsWith(r.effectiveLanguage, MapIso639Aliases(candidates[k].s))
  {
    var detectedTextLanguage := DetectTextLanguage(canDetectText, textDetection(selection.text.s));
    EffectiveLanguagePrecedence(selection, detectedTextLanguage, voices, detectedPageLanguage, k);
  }

  /**
   * A selection is replaced by the "no voice for language" message exactly
   * when none of its language candidates names a language of an installed voice.
   */
  lemma FallbackForNoVoice(selection: FrameSelection, voices: seq<Voice>, detectedPageLanguage: Option<string>,
                           canDetectText: bool, textDetection: string -> TextDetection, messages: Messages)
    requires HasValidText(selection)
    ensures var detectedTextLanguage := DetectTextLanguage(canDetectText, textDetection(selection.text.s));
      var candidates := Candidates(detectedTextLanguage, CleanupLanguagesArray(selection.parentElementsLanguages, voices),
                                   selection.htmlTagLanguage, detectedPageLanguage);
      var r := ResolveSelection(selection, voices, detectedPageLanguage, canDetectText, textDetection, messages);
      && ((forall j :: 0 <= j < 4 ==> !Survives(voices, candidates[j])) ==> r == messages.noVoiceForLanguageDetected)
      && ((exists j :: 0 <= j < 4 && Survives(voices, candidates[j])) ==> r.text == selection.text.s)
  {
    var detectedTextLanguage := DetectTextLanguage(canDetectText, textDetection(selection.text.s));
    NoEffectiveLanguage(selection, detectedTextLanguage, voices, detectedPageLanguage);
  }
}
