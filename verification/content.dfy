/**
 * The content-type classifier that picks voice settings: a text that mentions
 * a scene (in any letter case) is descriptive; otherwise one with a quotation
 * mark, an apostrophe, a colon or a verb of speech is dialogue; anything else
 * is narrative.
 */
module Content {
  import opened Text
  import opened Patterns

  datatype ContentType = Narrative | Descriptive | Dialogue

  /** Looked for in the lower-cased text. */
  const SceneMarkers: seq<string> := ["scene", "visual", "we see", "camera shows"]

  /** Looked for in the text as it is: letter case matters here. */
  const DialogueMarkers: seq<string> := ["\"", "'", ":", "says", "exclaims", "asks"]

  /** `any(marker in text for marker in markers)` */
  predicate AnyMarker(text: string, markers: seq<string>) {
    exists m | m in markers :: Contains(text, m)
  }

  /** `_detect_content_type` */
  function DetectContentType(text: string): (r: ContentType)
    ensures r == Descriptive <==> AnyMarker(Lower(text), SceneMarkers)
    ensures r == Narrative <==> !AnyMarker(Lower(text), SceneMarkers) && !AnyMarker(text, DialogueMarkers)
  {
    if AnyMarker(Lower(text), SceneMarkers) then Descriptive
    else if AnyMarker(text, DialogueMarkers) then Dialogue
    else Narrative
  }

  /** The classes in the order of precedence the classifier gives them. */
  function Rank(c: ContentType): nat {
    match c
    case Narrative => 0
    case Dialogue => 1
    case Descriptive => 2
  }

  lemma AnyMarkerAppend(a: string, b: string, markers: seq<string>)
    ensures AnyMarker(a, markers) || AnyMarker(b, markers) ==> AnyMarker(a + b, markers)
  {
    if AnyMarker(a, markers) {
      var m :| m in markers && Contains(a, m);
      ContainsAppend(a, b, m);
    } else if AnyMarker(b, markers) {
      var m :| m in markers && Contains(b, m);
      ContainsAppend(a, b, m);
    }
  }

  /**
   * Adding text never lowers the class: a text joined from two parts is at
   * least as descriptive or dialogue-like as either part.
   */
  lemma DetectMonotone(a: string, b: string)
    ensures Rank(DetectContentType(a + b)) >= Rank(DetectContentType(a))
    ensures Rank(DetectContentType(a + b)) >= Rank(DetectContentType(b))
  {
    LowerAppend(a, b);
    AnyMarkerAppend(Lower(a), Lower(b), SceneMarkers);
    AnyMarkerAppend(a, b, DialogueMarkers);
  }

  /** Whether a text is descriptive does not depend on its letter case. */
  lemma DescriptiveIgnoresCase(text: string)
    ensures DetectContentType(Lower(text)) == Descriptive <==> DetectContentType(text) == Descriptive
  {
    LowerOfLower(text);
    LowerOfLower(Lower(text));
  }

  /** A quotation mark, an apostrophe or a colon anywhere makes a text that is not descriptive dialogue. */
  lemma PunctuationIsDialogue(text: string, c: char)
    requires c == '"' || c == '\'' || c == ':'
    requires c in text
    ensures DetectContentType(text) != Narrative
    ensures DetectContentType(text) == Descriptive || DetectContentType(text) == Dialogue
  {
    ContainsChar(text, c);
    assert [c] in DialogueMarkers;
  }

  /** A colon with a digit on either side holds a colon. */
  lemma VerseColonHasColon(s: string)
    requires HasVerseColon(s)
    ensures ':' in s
  {
    var k :| 1 <= k < |s| - 1 && s[k] == ':' && IsDigit(s[k - 1]) && IsDigit(s[k + 1]);
  }

  /**
   * A text that cites a verse, as in `(Al-A'raf 7:28)`, is never narrative: the
   * colon of the reference is a dialogue marker.
   */
  lemma CitationIsNotNarrative(text: string)
    requires ContainsCitation(text)
    ensures DetectContentType(text) != Narrative
  {
    ContainsCitationSpec(text);
    var q, j :| 0 <= q < j < |text| && IsCitationSpan(text, q, j);
    VerseColonHasColon(text[q + 1..j]);
    var k :| 0 <= k < |text[q + 1..j]| && text[q + 1..j][k] == ':';
    assert text[q + 1 + k] == ':';
    PunctuationIsDialogue(text, ':');
  }
}
