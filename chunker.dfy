/**
 * The text chunker of the background script: text is cut into paragraphs at
 * runs of newlines, and each paragraph into "sentences" that the speech
 * synthesizer receives one at a time.
 */
module Chunker {

  import opened Seqs
  import opened Strings

  /** MAX_UTTERANCE_TEXT_LENGTH: the length limit `speak` passes to the sentence splitter. */
  const MaxUtteranceTextLength := 100

  /** splitTextToParagraphs: cut at every run of one or more newlines. */
  function SplitTextToParagraphs(text: string): (paragraphs: seq<string>)
    ensures |paragraphs| >= 1
    ensures forall i :: 0 <= i < |paragraphs| ==> '\n' !in paragraphs[i]
    ensures NonEmpty(paragraphs) == NonEmpty(SplitOn(text, '\n'))
  {
    SplitRuns(text, '\n')
  }

  /** naturalPauseRx: the word is `-` or `--`, or ends in one of `.,!?:;`. */
  predicate IsNaturalPause(word: string)
  {
    word == "-" || word == "--" || (|word| > 0 && word[|word| - 1] in ".,!?:;")
  }

  /** appendToText: a word extends the current part, separated by one space unless the part is empty. */
  function AppendToText(current: string, word: string): string
  {
    if current == "" then word else current + " " + word
  }

  /**
   * One step of the reduce over the words: a natural-pause word is attached
   * to the current part and closes it; another word joins the current part
   * when the result stays shorter than `maxPartLength`, and otherwise opens a
   * new part.
   */
  function Step(parts: seq<string>, word: string, maxPartLength: int): (next: seq<string>)
    requires |parts| > 0
    ensures |next| > 0
  {
    var current := parts[|parts| - 1];
    if IsNaturalPause(word) then parts[..|parts| - 1] + [AppendToText(current, word), ""]
    else if JsLength(current) + 1 + JsLength(word) < maxPartLength then parts[..|parts| - 1] + [AppendToText(current, word)]
    else parts + [word]
  }

  /** The reduce of the words, left to right, from the parts built so far. */
  function Pack(parts: seq<string>, words: seq<string>, maxPartLength: int): (packed: seq<string>)
    requires |parts| > 0
    ensures |packed| > 0
    decreases |words|
  {
    if words == [] then parts else Pack(Step(parts, words[0], maxPartLength), words[1..], maxPartLength)
  }

  /** The parts that survive `textPart.trim().length > 0`. */
  function KeepNonBlank(parts: seq<string>): seq<string>
  {
    Filter(parts, IsNotBlank)
  }

  /** What splitTextToSentencesOfMaxLength returns for one paragraph. */
  function SentencesOf(text: string, maxPartLength: int): seq<string>
  {
    KeepNonBlank(Pack([""], SplitRuns(text, ' '), maxPartLength))
  }

  /**
   * splitTextToSentencesOfMaxLength: the words (cut at runs of spaces) are
   * packed into parts by a loop that overwrites the last part or appends a
   * new one, and blank parts are dropped.
   */
  method SplitTextToSentencesOfMaxLength(text: string, maxPartLength: int) returns (chunks: seq<string>)
    ensures chunks == SentencesOf(text, maxPartLength)
    ensures forall i :: 0 <= i < |chunks| ==> !IsBlank(chunks[i])
  {
    var words := SplitRuns(text, ' ');
    var newParts := [""];
    var i := 0;
    while i < |words|
      invariant 0 <= i <= |words|
      invariant |newParts| > 0
      invariant Pack(newParts, words[i..], maxPartLength) == Pack([""], words, maxPartLength)
    {
      var word := words[i];
      var current := newParts[|newParts| - 1];
      ghost var before := newParts;
      if IsNaturalPause(word) {
        newParts := newParts[|newParts| - 1 := AppendToText(current, word)];
        newParts := newParts + [""];
      } else if JsLength(current) + 1 + JsLength(word) < maxPartLength {
        newParts := newParts[|newParts| - 1 := AppendToText(current, word)];
      } else {
        newParts := newParts + [word];
      }
      ReplaceLast(before, AppendToText(current, word));
      StepShape(before, word, maxPartLength);
      assert newParts == Step(before, word, maxPartLength);
      PackAt(before, words, i, maxPartLength);
      assert Pack(newParts, words[i + 1..], maxPartLength) == Pack(before, words[i..], maxPartLength);
      i := i + 1;
    }
    chunks := KeepNonBlank(newParts);
    SentencesAreNotBlank(text, maxPartLength);
  }

  /** Only parts with a character other than white space are kept. */
  lemma SentencesAreNotBlank(text: string, maxPartLength: int)
    ensures forall i :: 0 <= i < |SentencesOf(text, maxPartLength)| ==> IsNotBlank(SentencesOf(text, maxPartLength)[i])
  {
    FilterKept(Pack([""], SplitRuns(text, ' '), maxPartLength), IsNotBlank);
  }

  /**
   * The limit counts UTF-16 code units: two emoji after "a" make 1 + 1 + 4
   * units, which does not fit under 5, so they open a new part.
   */
  lemma AstralWordOpensNewPart()
    ensures Step(["a"], "\U{1F600}\U{1F600}", 5) == ["a", "\U{1F600}\U{1F600}"]
  {
    var word := "\U{1F600}\U{1F600}";
    assert word == ['\U{1F600}'] + ['\U{1F600}'];
    AstralCharIsTwoUnits('\U{1F600}');
    JsLengthConcat(['\U{1F600}'], ['\U{1F600}']);
    assert JsLength("a") == 1 by { assert "a"[1..] == []; }
  }

  /** Packing from position `i` is one step followed by packing from `i + 1`. */
  lemma PackAt(parts: seq<string>, words: seq<string>, i: nat, maxPartLength: int)
    requires |parts| > 0 && i < |words|
    ensures Pack(parts, words[i..], maxPartLength) == Pack(Step(parts, words[i], maxPartLength), words[i + 1..], maxPartLength)
  {
    assert words[i..][0] == words[i] && words[i..][1..] == words[i + 1..];
  }

  // ---------------------------------------------------------------------
  // Words: the chunker neither loses, duplicates nor reorders them.

  /** The pieces of a part between single spaces. */
  function Pieces(s: string): (pieces: seq<string>)
    ensures |pieces| >= 1
  {
    SplitOn(s, ' ')
  }

  /** The words of a string: the non-empty pieces between spaces. */
  function Tokens(s: string): seq<string>
  {
    NonEmpty(Pieces(s))
  }

  /** The words of all parts, in order. */
  function AllTokens(parts: seq<string>): seq<string>
  {
    if parts == [] then [] else Tokens(parts[0]) + AllTokens(parts[1..])
  }

  /** The words that hold a character other than white space. */
  function NonBlankWords(words: seq<string>): seq<string>
  {
    Filter(words, IsNotBlank)
  }

  lemma PiecesOfAppend(current: string, word: string)
    requires ' ' !in word
    ensures Pieces(AppendToText(current, word)) == if current == "" then [word] else Pieces(current) + [word]
  {
    SplitOnWithoutSeparator(word, ' ');
    if current != "" {
      assert current + " " + word == current + [' '] + word;
      SplitOnConcat(current, word, ' ');
    }
  }

  lemma TokensOfAppend(current: string, word: string)
    requires ' ' !in word
    ensures Tokens(AppendToText(current, word)) == Tokens(current) + NonEmpty([word])
  {
    PiecesOfAppend(current, word);
    if current == "" {
      assert Tokens(current) == [];
    } else {
      FilterConcat(Pieces(current), [word], IsNonEmpty);
    }
  }

  lemma {:induction false} AllTokensConcat(a: seq<string>, b: seq<string>)
    ensures AllTokens(a + b) == AllTokens(a) + AllTokens(b)
  {
    if a == [] {
      assert a + b == b;
    } else {
      assert (a + b)[0] == a[0] && (a + b)[1..] == a[1..] + b;
      AllTokensConcat(a[1..], b);
    }
  }

  lemma AllTokensOfOne(p: string)
    ensures AllTokens([p]) == Tokens(p)
  {
    assert [p][1..] == [];
  }

  lemma AllTokensSnoc(front: seq<string>, last: string)
    ensures AllTokens(front + [last]) == AllTokens(front) + Tokens(last)
  {
    AllTokensConcat(front, [last]);
    AllTokensOfOne(last);
  }

  /** The three ways a step can change the parts, each adding the word's tokens at the end. */
  lemma StepShape(parts: seq<string>, word: string, maxPartLength: int)
    requires |parts| > 0
    ensures var front, current := parts[..|parts| - 1], parts[|parts| - 1];
      && parts == front + [current]
      && Step(parts, word, maxPartLength) ==
        if IsNaturalPause(word) then (front + [AppendToText(current, word)]) + [""]
        else if JsLength(current) + 1 + JsLength(word) < maxPartLength then front + [AppendToText(current, word)]
        else parts + [word]
  {
    var front, current := parts[..|parts| - 1], parts[|parts| - 1];
    assert parts == front + [current];
    assert front + [AppendToText(current, word), ""] == (front + [AppendToText(current, word)]) + [""];
  }

  lemma AppendedTokens(front: seq<string>, current: string, word: string)
    requires ' ' !in word
    ensures AllTokens(front + [AppendToText(current, word)]) == AllTokens(front + [current]) + NonEmpty([word])
  {
    AllTokensSnoc(front, current);
    TokensOfAppend(current, word);
    AllTokensSnoc(front, AppendToText(current, word));
  }

  lemma ClosedTokens(front: seq<string>, current: string, word: string)
    requires ' ' !in word
    ensures AllTokens((front + [AppendToText(current, word)]) + [""]) == AllTokens(front + [current]) + NonEmpty([word])
  {
    AppendedTokens(front, current, word);
    AllTokensSnoc(front + [AppendToText(current, word)], "");
    assert Tokens("") == [];
  }

  lemma OpenedTokens(parts: seq<string>, word: string)
    requires ' ' !in word
    ensures AllTokens(parts + [word]) == AllTokens(parts) + NonEmpty([word])
  {
    AllTokensSnoc(parts, word);
    SplitOnWithoutSeparator(word, ' ');
  }

  lemma StepTokens(parts: seq<string>, word: string, maxPartLength: int)
    requires |parts| > 0 && ' ' !in word
    ensures AllTokens(Step(parts, word, maxPartLength)) == AllTokens(parts) + NonEmpty([word])
  {
    var front, current := parts[..|parts| - 1], parts[|parts| - 1];
    StepShape(parts, word, maxPartLength);
    if IsNaturalPause(word) {
      ClosedTokens(front, current, word);
    } else if JsLength(current) + 1 + JsLength(word) < maxPartLength {
      AppendedTokens(front, current, word);
    } else {
      OpenedTokens(parts, word);
    }
  }

  lemma {:induction false} PackTokens(parts: seq<string>, words: seq<string>, maxPartLength: int)
    requires |parts| > 0
    requires forall i :: 0 <= i < |words| ==> ' ' !in words[i]
    ensures AllTokens(Pack(parts, words, maxPartLength)) == AllTokens(parts) + NonEmpty(words)
    decreases |words|
  {
    if words != [] {
      var next := Step(parts, words[0], maxPartLength);
      StepTokens(parts, words[0], maxPartLength);
      assert forall i :: 0 <= i < |words[1..]| ==> ' ' !in words[1..][i] by {
        forall i | 0 <= i < |words[1..]| ensures ' ' !in words[1..][i] {
          assert words[1..][i] == words[i + 1];
        }
      }
      PackTokens(next, words[1..], maxPartLength);
      assert Pack(parts, words, maxPartLength) == Pack(next, words[1..], maxPartLength);
      assert words == [words[0]] + words[1..];
      FilterConcat([words[0]], words[1..], IsNonEmpty);
      var before, first, rest := AllTokens(parts), NonEmpty([words[0]]), NonEmpty(words[1..]);
      assert NonEmpty(words) == first + rest;
      ConcatAssociative(before, first, rest);
    }
  }

  lemma {:induction false} PiecesOfBlank(s: string)
    requires IsBlank(s)
    ensures forall i :: 0 <= i < |Pieces(s)| ==> IsBlank(Pieces(s)[i])
  {
    if |s| > 0 {
      var t := s[1..];
      assert s == [s[0]] + t;
      assert IsBlank(t) by {
        forall k | 0 <= k < |t| ensures IsWhitespace(t[k]) { assert t[k] == s[k + 1]; }
      }
      PiecesOfBlank(t);
      SplitOnCons(s[0], t, ' ');
      var rest := Pieces(t);
      var head := if s[0] == ' ' then "" else [s[0]] + rest[0];
      assert IsBlank(head) by {
        forall k | 0 <= k < |head| ensures IsWhitespace(head[k]) {
          if k > 0 { assert head[k] == rest[0][k - 1]; }
        }
      }
      var tail := if s[0] == ' ' then rest else rest[1..];
      assert Pieces(s) == [head] + tail;
      forall i | 0 <= i < |Pieces(s)| ensures IsBlank(Pieces(s)[i]) {
        if i > 0 {
          assert Pieces(s)[i] == tail[i - 1];
          if s[0] != ' ' { assert tail[i - 1] == rest[i]; }
        }
      }
    }
  }

  /** A blank part holds no non-blank word, so dropping it loses none. */
  lemma {:induction false} KeepNonBlankTokens(parts: seq<string>)
    ensures NonBlankWords(AllTokens(KeepNonBlank(parts))) == NonBlankWords(AllTokens(parts))
  {
    if parts != [] {
      var p, rest := parts[0], parts[1..];
      KeepNonBlankTokens(rest);
      FilterConcat(Tokens(p), AllTokens(rest), IsNotBlank);
      if IsNotBlank(p) {
        assert KeepNonBlank(parts) == [p] + KeepNonBlank(rest);
        FilterConcat(Tokens(p), AllTokens(KeepNonBlank(rest)), IsNotBlank);
        assert ([p] + KeepNonBlank(rest))[1..] == KeepNonBlank(rest);
      } else {
        assert KeepNonBlank(parts) == KeepNonBlank(rest);
        PiecesOfBlank(p);
        FilterMembers(Pieces(p), IsNonEmpty);
        forall i | 0 <= i < |Tokens(p)| ensures IsBlank(Tokens(p)[i]) {
          var j :| 0 <= j < |Pieces(p)| && Pieces(p)[j] == Tokens(p)[i];
        }
        FilterNone(Tokens(p), IsNotBlank);
      }
    }
  }

  /**
   * The words that are not blank come out of the sentence splitter exactly
   * as they went in: none lost, none duplicated, none reordered.
   */
  lemma SentencesKeepWords(text: string, maxPartLength: int)
    ensures NonBlankWords(AllTokens(SentencesOf(text, maxPartLength))) == NonBlankWords(Tokens(text))
  {
    var words := SplitRuns(text, ' ');
    var parts := Pack([""], words, maxPartLength);
    PackTokens([""], words, maxPartLength);
    AllTokensOfOne("");
    assert Tokens("") == [];
    assert AllTokens(parts) == NonEmpty(words) == Tokens(text);
    KeepNonBlankTokens(parts);
  }

  // ---------------------------------------------------------------------
  // Shape: how long a part may be and where natural pauses may fall.

  function FirstPiece(s: string): string
  {
    Pieces(s)[0]
  }

  function LastPiece(s: string): string
  {
    Pieces(s)[|Pieces(s)| - 1]
  }

  predicate NoPauseIn(words: seq<string>)
  {
    forall k :: 0 <= k < |words| ==> !IsNaturalPause(words[k])
  }

  /** The part still being filled: short or a single word, and no natural pause in it yet. */
  predicate OpenPart(p: string, maxPartLength: int)
  {
    (JsLength(p) < maxPartLength || ' ' !in p) && NoPauseIn(Pieces(p))
  }

  /**
   * A finished part: shorter than the limit, a single word, or ended by a
   * natural pause; a natural pause can only be its last word.
   */
  predicate ClosedPart(p: string, maxPartLength: int)
  {
    && (JsLength(p) < maxPartLength || ' ' !in p || IsNaturalPause(LastPiece(p)))
    && NoPauseIn(Pieces(p)[..|Pieces(p)| - 1])
  }

  /** A part not ended by a pause was closed because the next part's first word did not fit. */
  predicate Follows(p: string, q: string, maxPartLength: int)
  {
    IsNaturalPause(LastPiece(p)) || JsLength(p) + 1 + JsLength(FirstPiece(q)) >= maxPartLength
  }

  predicate WellFormed(parts: seq<string>, maxPartLength: int)
  {
    && |parts| > 0
    && OpenPart(parts[|parts| - 1], maxPartLength)
    && (forall i :: 0 <= i < |parts| - 1 ==> ClosedPart(parts[i], maxPartLength))
    && (forall i :: 0 <= i < |parts| - 1 ==> Follows(parts[i], parts[i + 1], maxPartLength))
  }

  lemma OpenIsClosed(p: string, maxPartLength: int)
    requires OpenPart(p, maxPartLength)
    ensures ClosedPart(p, maxPartLength)
  {
  }

  lemma AppendKeepsFirstPiece(current: string, word: string)
    requires ' ' !in word
    ensures JsLength(FirstPiece(AppendToText(current, word))) >= JsLength(FirstPiece(current))
  {
    PiecesOfAppend(current, word);
    if current == "" {
      SplitOnWithoutSeparator(current, ' ');
    }
  }

  /** appendToText adds the word's code units, and one for the space unless the part was empty. */
  lemma JsLengthOfAppend(current: string, word: string)
    ensures JsLength(AppendToText(current, word)) == if current == "" then JsLength(word) else JsLength(current) + 1 + JsLength(word)
  {
    if current != "" {
      JsLengthConcat(current + " ", word);
      JsLengthConcat(current, " ");
      assert " "[1..] == [];
    }
  }

  lemma AppendOpen(current: string, word: string, maxPartLength: int)
    requires OpenPart(current, maxPartLength) && ' ' !in word && !IsNaturalPause(word)
    requires JsLength(current) + 1 + JsLength(word) < maxPartLength
    ensures OpenPart(AppendToText(current, word), maxPartLength)
  {
    PiecesOfAppend(current, word);
    JsLengthOfAppend(current, word);
  }

  lemma AppendPause(current: string, word: string, maxPartLength: int)
    requires OpenPart(current, maxPartLength) && ' ' !in word && IsNaturalPause(word)
    ensures ClosedPart(AppendToText(current, word), maxPartLength)
    ensures IsNaturalPause(LastPiece(AppendToText(current, word)))
  {
    PiecesOfAppend(current, word);
    var pieces := Pieces(AppendToText(current, word));
    if current != "" {
      assert pieces[..|pieces| - 1] == Pieces(current);
    }
  }

  lemma SingleWordOpen(word: string, maxPartLength: int)
    requires ' ' !in word && !IsNaturalPause(word)
    ensures OpenPart(word, maxPartLength) && FirstPiece(word) == word
  {
    SplitOnWithoutSeparator(word, ' ');
  }

  lemma EmptyOpen(maxPartLength: int)
    ensures OpenPart("", maxPartLength) && FirstPiece("") == ""
  {
    SplitOnWithoutSeparator("", ' ');
  }

  lemma StepWellFormed(parts: seq<string>, word: string, maxPartLength: int)
    requires WellFormed(parts, maxPartLength) && ' ' !in word
    ensures WellFormed(Step(parts, word, maxPartLength), maxPartLength)
  {
    var current := parts[|parts| - 1];
    if IsNaturalPause(word) {
      PauseStepWellFormed(parts, word, maxPartLength);
    } else if JsLength(current) + 1 + JsLength(word) < maxPartLength {
      FittingStepWellFormed(parts, word, maxPartLength);
    } else {
      OpenIsClosed(current, maxPartLength);
      SingleWordOpen(word, maxPartLength);
      assert Step(parts, word, maxPartLength) == parts + [word];
    }
  }

  /** A natural pause ends the last part and opens an empty one. */
  lemma PauseStepWellFormed(parts: seq<string>, word: string, maxPartLength: int)
    requires WellFormed(parts, maxPartLength) && ' ' !in word && IsNaturalPause(word)
    ensures WellFormed(Step(parts, word, maxPartLength), maxPartLength)
  {
    var n := |parts|;
    var current := parts[n - 1];
    var next := Step(parts, word, maxPartLength);
    var appended := AppendToText(current, word);
    AppendKeepsFirstPiece(current, word);
    AppendPause(current, word, maxPartLength);
    EmptyOpen(maxPartLength);
    assert next == parts[..n - 1] + [appended, ""];
    assert next[n - 1] == appended && next[n] == "";
    assert forall i :: 0 <= i < n - 1 ==> next[i] == parts[i];
  }

  /** A word that fits is appended to the last part, which stays open. */
  lemma FittingStepWellFormed(parts: seq<string>, word: string, maxPartLength: int)
    requires WellFormed(parts, maxPartLength) && ' ' !in word && !IsNaturalPause(word)
    requires JsLength(parts[|parts| - 1]) + 1 + JsLength(word) < maxPartLength
    ensures WellFormed(Step(parts, word, maxPartLength), maxPartLength)
  {
    var n := |parts|;
    var current := parts[n - 1];
    var next := Step(parts, word, maxPartLength);
    var appended := AppendToText(current, word);
    AppendKeepsFirstPiece(current, word);
    AppendOpen(current, word, maxPartLength);
    assert next == parts[..n - 1] + [appended];
    assert forall i :: 0 <= i < n - 1 ==> next[i] == parts[i];
  }

  lemma {:induction false} PackWellFormed(parts: seq<string>, words: seq<string>, maxPartLength: int)
    requires WellFormed(parts, maxPartLength)
    requires forall i :: 0 <= i < |words| ==> ' ' !in words[i]
    ensures WellFormed(Pack(parts, words, maxPartLength), maxPartLength)
    decreases |words|
  {
    if words != [] {
      StepWellFormed(parts, words[0], maxPartLength);
      PackWellFormed(Step(parts, words[0], maxPartLength), words[1..], maxPartLength);
    }
  }

  lemma PackOfParagraphWellFormed(text: string, maxPartLength: int)
    ensures WellFormed(Pack([""], SplitRuns(text, ' '), maxPartLength), maxPartLength)
  {
    EmptyOpen(maxPartLength);
    PackWellFormed([""], SplitRuns(text, ' '), maxPartLength);
  }

  /**
   * Every sentence is shorter than the limit, or a single word, or ends in a
   * natural-pause word; and a natural-pause word is always the last word of
   * its sentence, so the word after it starts the next one.
   */
  lemma SentenceShape(text: string, maxPartLength: int)
    ensures forall i :: 0 <= i < |SentencesOf(text, maxPartLength)| ==>
      ClosedPart(SentencesOf(text, maxPartLength)[i], maxPartLength)
  {
    var parts := Pack([""], SplitRuns(text, ' '), maxPartLength);
    PackOfParagraphWellFormed(text, maxPartLength);
    OpenIsClosed(parts[|parts| - 1], maxPartLength);
    FilterMembers(parts, IsNotBlank);
    var sentences := SentencesOf(text, maxPartLength);
    forall i | 0 <= i < |sentences| ensures ClosedPart(sentences[i], maxPartLength) {
      var j :| 0 <= j < |parts| && parts[j] == sentences[i];
    }
  }

  /**
   * Greedy packing: a part that does not end in a natural pause was closed
   * only because appending the next part's first word would have reached the limit.
   */
  lemma PartsArePackedGreedily(text: string, maxPartLength: int)
    ensures var parts := Pack([""], SplitRuns(text, ' '), maxPartLength);
      forall i :: 0 <= i < |parts| - 1 ==> Follows(parts[i], parts[i + 1], maxPartLength)
  {
    PackOfParagraphWellFormed(text, maxPartLength);
  }
}
