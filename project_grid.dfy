/** The folder view of components/ProjectGrid.tsx: the empty-folder placeholder, one card per
    project with its hover image, and the first sentence of the description that a card shows. */
module ProjectGrid {
  import opened Wrappers
  import opened Types
  import opened Strings

  // ------------------------------------------------------------ first sentence

  predicate IsStop(c: char)
  {
    c == '.' || c == '!' || c == '?'
  }

  /** `[.!?](?:\s|$)` matches at `k`: a stop character followed by white space or the end. */
  predicate StopAt(s: string, k: int)
  {
    0 <= k < |s| && IsStop(s[k]) && (k + 1 == |s| || IsWhitespace(s[k + 1]))
  }

  /** `^.*?[.!?](?:\s|$)` can match with its stop character at `k`: the lazy `.*?` before it
      crosses no line terminator. */
  predicate MatchEndsAt(s: string, k: int)
  {
    StopAt(s, k) && forall j :: 0 <= j < k ==> !IsLineTerminator(s[j])
  }

  /** The leftmost stop at or after `from` that the pattern reaches without leaving the first line. */
  function FindStop(s: string, from: nat): (r: Option<nat>)
    requires forall j :: 0 <= j < from && j < |s| ==> !IsLineTerminator(s[j])
    decreases |s| - from
    ensures r.Some? ==> from <= r.value && MatchEndsAt(s, r.value)
    ensures r.Some? ==> forall j :: from <= j < r.value ==> !StopAt(s, j)
    ensures r.None? ==> forall k :: from <= k ==> !MatchEndsAt(s, k)
  {
    if from >= |s| || IsLineTerminator(s[from]) then None
    else if StopAt(s, from) then Some(from)
    else FindStop(s, from + 1)
  }

  /** `getFirstSentence`: the lazy match trimmed, or the whole text trimmed when nothing matches.
      The match includes the white-space character after the stop, when there is one. */
  function FirstSentence(text: string): string
  {
    if text == [] then []
    else match FindStop(text, 0)
      case Some(k) => Trim(text[..if k + 1 < |text| then k + 2 else k + 1])
      case None => Trim(text)
  }

  /** Leading white space is trimmed the same way whatever follows a last non-space character. */
  lemma {:induction false} TrimStartAppend(x: string, y: string)
    requires x != [] && !IsWhitespace(x[|x| - 1])
    ensures TrimStart(x + y) == TrimStart(x) + y
  {
    if IsWhitespace(x[0]) {
      assert (x + y)[1..] == x[1..] + y;
      TrimStartAppend(x[1..], y);
    }
  }

  /** Trimming the front of a text that ends with a non-space character keeps that character last. */
  lemma {:induction false} TrimStartKeepsLast(x: string)
    requires x != [] && !IsWhitespace(x[|x| - 1])
    ensures TrimStart(x) != [] && TrimStart(x)[|TrimStart(x)| - 1] == x[|x| - 1]
  {
    if IsWhitespace(x[0]) {
      TrimStartKeepsLast(x[1..]);
    }
  }

  /** Trimming the end of a text whose last character is not white space, with or without one
      white-space character after it, gives the text. */
  lemma TrimEndOne(t: string, w: string)
    requires t != [] && !IsWhitespace(t[|t| - 1])
    requires w == [] || (|w| == 1 && IsWhitespace(w[0]))
    ensures TrimEnd(t + w) == t
  {
    if w != [] {
      assert (t + w)[..|t + w| - 1] == t;
    }
  }

  /** Trimming a text that ends with a stop keeps the stop, with or without one following
      white-space character. */
  lemma TrimAtStop(x: string, w: string)
    requires x != [] && IsStop(x[|x| - 1])
    requires w == [] || (|w| == 1 && IsWhitespace(w[0]))
    ensures Trim(x + w) == TrimStart(x)
    ensures TrimStart(x) != [] && TrimStart(x)[|TrimStart(x)| - 1] == x[|x| - 1]
  {
    TrimStartAppend(x, w);
    TrimStartKeepsLast(x);
    TrimEndOne(TrimStart(x), w);
  }

  lemma EmptyText()
    ensures FirstSentence([]) == []
  {
  }

  /** When the pattern matches, the result is the trimmed text up to the leftmost stop the first
      line reaches, and it ends with that stop. */
  lemma FirstSentenceFound(text: string, k: nat)
    requires MatchEndsAt(text, k)
    requires forall j :: 0 <= j < k ==> !StopAt(text, j)
    ensures var r := FirstSentence(text);
      && r == TrimStart(text[..k + 1]) && EndsWith(text[..k + 1], r)
      && r != [] && r[|r| - 1] == text[k]
  {
    var n := if k + 1 < |text| then k + 2 else k + 1;
    assert FindStop(text, 0) == Some(k);
    var w := text[k + 1..n];
    assert text[..n] == text[..k + 1] + w;
    TrimAtStop(text[..k + 1], w);
  }

  /** Without a stop that the first line reaches, the whole text is trimmed. */
  lemma FirstSentenceWhole(text: string)
    requires forall k :: !MatchEndsAt(text, k)
    ensures FirstSentence(text) == Trim(text)
  {
  }

  /** A stop on a later line is never found: a text whose first line holds no stop gives the
      whole text trimmed, wherever the later lines stop. */
  lemma FirstLineOnly(text: string, j: nat)
    requires j < |text| && IsLineTerminator(text[j])
    requires forall k :: 0 <= k < j ==> !StopAt(text, k)
    ensures FirstSentence(text) == Trim(text)
  {
    forall k ensures !MatchEndsAt(text, k) {
    }
  }

  /** A point inside a number ends no sentence: `v1.2 is out. More` gives `v1.2 is out.`. */
  lemma DecimalPoint(text: string)
    requires text == "v1.2 is out. More"
    ensures FirstSentence(text) == "v1.2 is out."
  {
    assert StopAt(text, 11);
    forall j | 0 <= j < 11 ensures !StopAt(text, j) {
      if j == 2 {
        assert text[3] == '2';
      }
    }
    FirstSentenceFound(text, 11);
    assert text[..12] == "v1.2 is out.";
  }

  // ------------------------------------------------------------ cards

  /** The image a card shows: the hover image while the card is hovered and the project has a
      non-empty one, and the main image otherwise. */
  function CardImage(p: Project, hovered: bool): (url: string)
  {
    if hovered && p.hoverImageUrl.Some? && p.hoverImageUrl.value != [] then p.hoverImageUrl.value
    else p.imageUrl
  }

  datatype Card = Card(id: string, image: string, sentence: string, title: string)

  /** What the folder window shows: the placeholder, or one card per project in catalog order. */
  datatype GridView = EmptyFolder | Cards(cards: seq<Card>)

  function CardOf(p: Project, hoveredId: Option<string>): Card
  {
    Card(p.id, CardImage(p, hoveredId == Some(p.id)), FirstSentence(p.description), p.title)
  }

  function RenderGrid(projects: seq<Project>, hoveredId: Option<string>): GridView
  {
    if |projects| == 0 then EmptyFolder
    else Cards(seq(|projects|, i requires 0 <= i < |projects| => CardOf(projects[i], hoveredId)))
  }

  /** The placeholder shows exactly for an empty folder; otherwise card `i` belongs to project
      `i`, shows its title and first sentence, and shows its hover image only when it is the
      hovered card and has one. */
  lemma RenderGridSpec(projects: seq<Project>, hoveredId: Option<string>)
    ensures RenderGrid(projects, hoveredId).EmptyFolder? <==> projects == []
    ensures var v := RenderGrid(projects, hoveredId); v.Cards? ==>
      && |v.cards| == |projects|
      && forall i :: 0 <= i < |projects| ==>
        var p, c := projects[i], v.cards[i];
        && c.id == p.id && c.title == p.title && c.sentence == FirstSentence(p.description)
        && (c.image == p.imageUrl || (hoveredId == Some(p.id) && p.hoverImageUrl == Some(c.image) && c.image != []))
        && (hoveredId != Some(p.id) ==> c.image == p.imageUrl)
  {
  }

  /** With distinct project ids, at most one card shows its hover image. */
  lemma OneHoveredCard(projects: seq<Project>, hoveredId: Option<string>, i: int, j: int)
    requires forall a, b :: 0 <= a < b < |projects| ==> projects[a].id != projects[b].id
    requires 0 <= i < |projects| && 0 <= j < |projects|
    requires CardImage(projects[i], hoveredId == Some(projects[i].id)) != projects[i].imageUrl
    requires CardImage(projects[j], hoveredId == Some(projects[j].id)) != projects[j].imageUrl
    ensures i == j
  {
  }
}
