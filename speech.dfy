/**
 * The speaking token of the background script: `speak` stores a fresh id as
 * "Talkie is speaking" in the page, speaks each chunk of the text only while
 * that id is still stored, and clears it at the end; a click on the icon
 * clears it, which silences the chunks not yet spoken.
 */
module Speech {

  import opened Wrappers
  import opened Strings
  import opened Seqs
  import opened Chunker
  import opened DeepArrays
  import Tabs
  import BackgroundTabs

  /**
   * What a click on the icon goes on to do: speak the special-tab message,
   * queue reading the selection with the icon set to "stop", or only set the
   * icon back to "play".
   */
  datatype ClickOutcome = SpokeSpecialTabMessage | QueuedSpeakUserSelection | QueuedIconStopped

  /** A chunk handed to the speech synthesizer, with the language to speak it in. */
  datatype Utterance = Utterance(text: string, language: string)

  function Utterances(parts: seq<string>, language: string): (r: seq<Utterance>)
    ensures |r| == |parts|
    ensures forall i :: 0 <= i < |r| ==> r[i] == Utterance(parts[i], language)
  {
    seq(|parts|, i requires 0 <= i < |parts| => Utterance(parts[i], language))
  }

  /** The chunks of every paragraph, paragraph by paragraph. */
  function ChunksPerParagraph(paragraphs: seq<string>): (r: seq<seq<string>>)
    ensures |r| == |paragraphs|
    ensures forall i :: 0 <= i < |r| ==> r[i] == SentencesOf(paragraphs[i], MaxUtteranceTextLength)
  {
    seq(|paragraphs|, i requires 0 <= i < |paragraphs| => SentencesOf(paragraphs[i], MaxUtteranceTextLength))
  }

  /** textParts of `speak`: the chunks of all paragraphs, in order. */
  function TextParts(text: string): seq<string>
  {
    Concat(ChunksPerParagraph(SplitTextToParagraphs(text)))
  }

  /** `paragraphs.map(...)` with splitTextToSentencesOfMaxLength: the chunks of each paragraph. */
  method ChunkParagraphs(paragraphs: seq<string>) returns (cleanTextParts: seq<seq<string>>)
    ensures cleanTextParts == ChunksPerParagraph(paragraphs)
  {
    cleanTextParts := [];
    var p := 0;
    while p < |paragraphs|
      invariant 0 <= p <= |paragraphs|
      invariant cleanTextParts == ChunksPerParagraph(paragraphs)[..p]
    {
      var chunks := SplitTextToSentencesOfMaxLength(paragraphs[p], MaxUtteranceTextLength);
      TakeOneMore(ChunksPerParagraph(paragraphs), p);
      cleanTextParts := cleanTextParts + [chunks];
      p := p + 1;
    }
    assert ChunksPerParagraph(paragraphs)[..p] == ChunksPerParagraph(paragraphs);
  }

  /**
   * The chunking inside `speak`: paragraphs, the sentences of each
   * paragraph, and `flatten` of the per-paragraph lists.
   */
  method SplitIntoTextParts(text: string) returns (textParts: seq<string>)
    ensures textParts == TextParts(text)
  {
    var paragraphs := SplitTextToParagraphs(text);
    var cleanTextParts := ChunkParagraphs(paragraphs);
    textParts := LeavesOf(Flatten(Nest(cleanTextParts)).items);
    FlattenedLeaves(cleanTextParts);
  }

  /** The leaves of the flattened per-paragraph lists are the lists joined. */
  lemma FlattenedLeaves(xss: seq<seq<string>>)
    ensures LeavesOf(Flatten(Nest(xss)).items) == Concat(xss)
  {
    FlattenNest(xss);
    LeavesOfAsLeaves(Concat(xss));
  }

  lemma UtterancesConcat(a: seq<string>, b: seq<string>, language: string)
    ensures Utterances(a + b, language) == Utterances(a, language) + Utterances(b, language)
  {
    assert forall i :: 0 <= i < |a + b| ==> (a + b)[i] == if i < |a| then a[i] else b[i - |a|];
  }

  /**
   * The id stored in the page when chunk `k` is about to be spoken: the run's
   * own id, unless other handlers have since stored another value; `writes`
   * holds, by chunk index, what they stored just before that chunk.
   */
  function StoredIdAt(id: int, writes: map<nat, Option<int>>, k: nat): Option<int>
  {
    var before := if k == 0 then Some(id) else StoredIdAt(id, writes, k - 1);
    if k in writes then writes[k] else before
  }

  /** The first `n` parts, keeping those whose check found the run's own id. */
  function SpokenParts(parts: seq<string>, id: int, writes: map<nat, Option<int>>, n: nat): (r: seq<string>)
    requires n <= |parts|
    ensures |r| <= n
  {
    if n == 0 then []
    else SpokenParts(parts, id, writes, n - 1) + (if StoredIdAt(id, writes, n - 1) == Some(id) then [parts[n - 1]] else [])
  }

  lemma ChunksPerParagraphTail(paragraphs: seq<string>)
    requires paragraphs != []
    ensures ChunksPerParagraph(paragraphs)[1..] == ChunksPerParagraph(paragraphs[1..])
  {
  }

  /**
   * A part the synthesizer can be given: it has a character other than white
   * space, and it is shorter than MAX_UTTERANCE_TEXT_LENGTH, a single word,
   * or ended by a natural pause.
   */
  predicate IsSpeakablePart(part: string)
  {
    IsNotBlank(part) && ClosedPart(part, MaxUtteranceTextLength)
  }

  function Speakable(): string -> bool
  {
    part => IsSpeakablePart(part)
  }

  lemma PartsOfParagraphs(paragraphs: seq<string>)
    ensures forall k :: 0 <= k < |Concat(ChunksPerParagraph(paragraphs))| ==>
      IsSpeakablePart(Concat(ChunksPerParagraph(paragraphs))[k])
  {
    var chunks := ChunksPerParagraph(paragraphs);
    forall i | 0 <= i < |chunks| ensures forall j :: 0 <= j < |chunks[i]| ==> Speakable()(chunks[i][j]) {
      SentencesAreNotBlank(paragraphs[i], MaxUtteranceTextLength);
      SentenceShape(paragraphs[i], MaxUtteranceTextLength);
    }
    ConcatKeeps(chunks, Speakable());
  }

  lemma TextPartsAreSpeakable(text: string)
    ensures forall i :: 0 <= i < |TextParts(text)| ==> IsSpeakablePart(TextParts(text)[i])
  {
    var paragraphs := SplitTextToParagraphs(text);
    PartsOfParagraphs(paragraphs);
    assert TextParts(text) == Concat(ChunksPerParagraph(paragraphs));
  }

  /** The words of the paragraphs reach the text parts in order, none lost or repeated (blank words aside). */
  lemma {:induction false} WordsOfParagraphs(paragraphs: seq<string>)
    ensures NonBlankWords(AllTokens(Concat(ChunksPerParagraph(paragraphs)))) == NonBlankWords(AllTokens(paragraphs))
  {
    if paragraphs != [] {
      var first := SentencesOf(paragraphs[0], MaxUtteranceTextLength);
      ChunksPerParagraphTail(paragraphs);
      WordsOfParagraphs(paragraphs[1..]);
      var rest := Concat(ChunksPerParagraph(paragraphs[1..]));
      assert Concat(ChunksPerParagraph(paragraphs)) == first + rest;
      AllTokensConcat(first, rest);
      FilterConcat(AllTokens(first), AllTokens(rest), IsNotBlank);
      SentencesKeepWords(paragraphs[0], MaxUtteranceTextLength);
      FilterConcat(Tokens(paragraphs[0]), AllTokens(paragraphs[1..]), IsNotBlank);
    }
  }

  lemma TextPartsKeepWords(text: string)
    ensures NonBlankWords(AllTokens(TextParts(text))) == NonBlankWords(AllTokens(SplitTextToParagraphs(text)))
  {
    WordsOfParagraphs(SplitTextToParagraphs(text));
  }

  /** With one write of `v` before chunk `c`, the stored id is the run's own until then and `v` from then on. */
  lemma {:induction false} StoredIdAfterOneWrite(id: int, c: nat, v: Option<int>, k: nat)
    ensures StoredIdAt(id, map[c := v], k) == if k < c then Some(id) else v
  {
    if k > 0 {
      StoredIdAfterOneWrite(id, c, v, k - 1);
    }
  }

  /** Nothing else stored: every part is spoken. */
  lemma {:induction false} UninterruptedRunSpeaksAll(parts: seq<string>, id: int, n: nat)
    requires n <= |parts|
    ensures SpokenParts(parts, id, map[], n) == parts[..n]
  {
    if n > 0 {
      UninterruptedRunSpeaksAll(parts, id, n - 1);
      assert StoredIdAt(id, map[], n - 1) == Some(id) by {
        StoredIdAfterOneWrite(id, n, Some(id), n - 1);
        assert map[n := Some(id)] == map[n := Some(id)];
      }
      assert parts[..n] == parts[..n - 1] + [parts[n - 1]];
    }
  }

  /**
   * A click before chunk `c` (which stores no id), or another run storing its
   * own id, silences that chunk and every later one: exactly the parts before
   * `c` are spoken.
   */
  lemma {:induction false} InterruptedRunStops(parts: seq<string>, id: int, c: nat, v: Option<int>, n: nat)
    requires v != Some(id) && n <= |parts|
    ensures SpokenParts(parts, id, map[c := v], n) == parts[..if n < c then n else c]
  {
    if n > 0 {
      InterruptedRunStops(parts, id, c, v, n - 1);
      StoredIdAfterOneWrite(id, c, v, n - 1);
      if n <= c {
        assert parts[..n] == parts[..n - 1] + [parts[n - 1]];
      }
    }
  }

  /** With only foreign values stored, the check reads the run's own id exactly before the first of them. */
  lemma {:induction false} StoredIdWithForeignWrites(id: int, writes: map<nat, Option<int>>, c: nat, k: nat)
    requires forall j :: j in writes ==> writes[j] != Some(id)
    requires c in writes && forall j :: j in writes ==> c <= j
    ensures StoredIdAt(id, writes, k) == Some(id) <==> k < c
  {
    if k > 0 {
      StoredIdWithForeignWrites(id, writes, c, k - 1);
    }
  }

  /**
   * Any values other handlers store, none of them this run's id (a click
   * storing null, later runs storing their own ids and clearing them), silence
   * the run from the first of them on: exactly the parts before it are spoken.
   */
  lemma {:induction false} ForeignWritesStop(parts: seq<string>, id: int, writes: map<nat, Option<int>>, c: nat, n: nat)
    requires forall j :: j in writes ==> writes[j] != Some(id)
    requires c in writes && forall j :: j in writes ==> c <= j
    requires n <= |parts|
    ensures SpokenParts(parts, id, writes, n) == parts[..if n < c then n else c]
  {
    if n > 0 {
      ForeignWritesStop(parts, id, writes, c, n - 1);
      StoredIdWithForeignWrites(id, writes, c, n - 1);
      if n <= c {
        assert parts[..n] == parts[..n - 1] + [parts[n - 1]];
      }
    }
  }

  /**
   * The browser side of the speaking token: `window.talkieIsSpeaking` of the
   * page, and the utterances handed to the speech synthesizer so far.
   */
  class Speaker {
    var speakingId: Option<int>
    var spoken: seq<Utterance>

    constructor()
      ensures speakingId == None && spoken == []
    {
      speakingId := None;
      spoken := [];
    }

    /** executeSetTalkieIsNotSpeaking: the stored id is cleared. */
    method SetTalkieIsNotSpeaking()
      modifies this
      ensures speakingId == None && spoken == old(spoken)
    {
      speakingId := None;
    }

    /**
     * promiseSeries over the text parts: before each part the stored id is
     * read again, and the part is spoken only if it is still `id`.
     */
    method SpeakTextParts(textParts: seq<string>, language: string, id: int, writes: map<nat, Option<int>>)
      requires speakingId == Some(id)
      modifies this
      ensures spoken == old(spoken) + Utterances(SpokenParts(textParts, id, writes, |textParts|), language)
      ensures speakingId == if textParts == [] then Some(id) else StoredIdAt(id, writes, |textParts| - 1)
    {
      ghost var start := spoken;
      var k := 0;
      while k < |textParts|
        invariant 0 <= k <= |textParts|
        invariant speakingId == (if k == 0 then Some(id) else StoredIdAt(id, writes, k - 1))
        invariant spoken == start + Utterances(SpokenParts(textParts, id, writes, k), language)
      {
        if k in writes {
          speakingId := writes[k];
        }
        assert speakingId == StoredIdAt(id, writes, k);
        ghost var kept := if speakingId == Some(id) then [textParts[k]] else [];
        assert SpokenParts(textParts, id, writes, k + 1) == SpokenParts(textParts, id, writes, k) + kept;
        UtterancesConcat(SpokenParts(textParts, id, writes, k), kept, language);
        if speakingId == Some(id) {
          spoken := spoken + [Utterance(textParts[k], language)];
        }
        k := k + 1;
      }
    }

    /**
     * speak: store `id` (a random number from 10000 up to 99998), cut the
     * text into chunks, and speak each chunk only if the stored id is still
     * `id`; finally clear the stored id. `writes` says what other handlers
     * (a click on the icon, another run of `speak`) store between chunks.
     */
    method Speak(text: string, language: string, id: int, writes: map<nat, Option<int>>)
      requires 10000 <= id < 99999
      modifies this
      ensures spoken == old(spoken) + Utterances(SpokenParts(TextParts(text), id, writes, |TextParts(text)|), language)
      ensures speakingId == None
    {
      speakingId := Some(id);
      var textParts := SplitIntoTextParts(text);
      SpeakTextParts(textParts, language, id, writes);
      speakingId := None;
    }

    /**
     * handleIconClick: in a tab Talkie cannot read, the special-tab message
     * is spoken and the stored id is left alone; otherwise the stored id is
     * cleared, which silences a running `speak`, and reading the selection is
     * queued only if the synthesizer was not speaking when the icon was clicked.
     */
    method HandleIconClick(tab: Option<Tabs.Tab>, wasSpeaking: bool, specialTabMessage: Utterance)
      returns (outcome: ClickOutcome)
      modifies this
      ensures !BackgroundTabs.CanTalkieRunInTab(tab) ==>
        outcome == SpokeSpecialTabMessage && speakingId == old(speakingId) && spoken == old(spoken) + [specialTabMessage]
      ensures BackgroundTabs.CanTalkieRunInTab(tab) ==>
        speakingId == None && spoken == old(spoken) &&
        outcome == (if wasSpeaking then QueuedIconStopped else QueuedSpeakUserSelection)
    {
      var canRun := BackgroundTabs.CanTalkieRunInTab(tab);
      if !canRun {
        spoken := spoken + [specialTabMessage];
        outcome := SpokeSpecialTabMessage;
      } else {
        SetTalkieIsNotSpeaking();
        if !wasSpeaking {
          outcome := QueuedSpeakUserSelection;
        } else {
          outcome := QueuedIconStopped;
        }
      }
    }
  }
}
