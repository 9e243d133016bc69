/**
 * The academic-search result card: the author line (the first two
 * `;`-separated authors joined by ", ", plus " et al." when there are
 * more) and the arXiv PDF link (the paper URL with its first "abs" turned
 * into "pdf").
 */
module AcademicCard {
  import opened Common
  import opened Strings

  /** `author.split(";").slice(0, 2).join(", ") + (author.split(";").length > 2 ? " et al." : "")`. */
  function AuthorLine(author: string): string {
    var parts := Split(author, ';');
    Join(Take(parts, 2), ", ") + (if |parts| > 2 then " et al." else "")
  }

  /** A single author is shown as written. */
  lemma AuthorLineSingle(a: string)
    requires ';' !in a
    ensures AuthorLine(a) == a
  {
    SplitWithoutSeparator(a, ';');
  }

  /** Two authors are joined by ", ", untrimmed. */
  lemma AuthorLinePair(a: string, b: string)
    requires ';' !in a && ';' !in b
    ensures AuthorLine(a + ";" + b) == a + ", " + b
  {
    SplitAtFirstSeparator(a, b, ';');
    SplitWithoutSeparator(b, ';');
    assert Split(a + ";" + b, ';') == [a, b];
    assert Join([a, b], ", ") == a + ", " + Join([b], ", ");
  }

  /** With three or more authors only the first two are shown, followed by " et al.". */
  lemma AuthorLineMany(a: string, b: string, rest: string)
    requires ';' !in a && ';' !in b
    ensures AuthorLine(a + ";" + b + ";" + rest) == a + ", " + b + " et al."
  {
    var s := a + ";" + b + ";" + rest;
    assert s == a + [';'] + (b + [';'] + rest);
    SplitAtFirstSeparator(a, b + ";" + rest, ';');
    SplitAtFirstSeparator(b, rest, ';');
    var parts := Split(s, ';');
    assert parts == [a, b] + Split(rest, ';');
    assert Take(parts, 2) == [a, b];
    assert Join([a, b], ", ") == a + ", " + Join([b], ", ");
  }

  /** " et al." is appended exactly when the author string holds at least two separators. */
  lemma EtAlIffMoreThanTwo(author: string)
    ensures |Split(author, ';')| > 2 <==> Count(author, ';') >= 2
  {
  }

  /** The PDF link shown for a paper URL: only for arXiv URLs, with the first "abs" replaced. */
  function PdfUrl(url: string): (r: Option<string>)
    ensures r.Some? <==> Contains(url, "arxiv.org")
    ensures r.Some? ==> |r.value| == |url|
  {
    if Contains(url, "arxiv.org") then Some(ReplaceFirst(url, "abs", "pdf")) else None
  }

  /** No occurrence of "abs" starts inside `p` when `p` itself does not contain it. */
  lemma NoAbsBefore(p: string, q: string, j: nat)
    requires !Contains(p, "abs") && j < |p|
    ensures !OccursAt(p + "abs" + q, "abs", j)
  {
    var s := p + "abs" + q;
    if j + 3 <= |p| {
      assert p[j..j + 3] == s[j..j + 3];
      assert !OccursAt(p, "abs", j);
    } else if j + 2 == |p| {
      assert s[j + 2] == 'a';
    } else {
      assert s[j + 1] == 'a';
    }
  }

  /** An arXiv abstract URL becomes its PDF URL: the first "abs" turns into "pdf", any later one stays. */
  lemma PdfUrlFirstAbs(p: string, q: string)
    requires !Contains(p, "abs")
    requires Contains(p + "abs" + q, "arxiv.org")
    ensures PdfUrl(p + "abs" + q) == Some(p + "pdf" + q)
  {
    var s := p + "abs" + q;
    forall j: nat | j < |p| ensures !OccursAt(s, "abs", j) {
      NoAbsBefore(p, q, j);
    }
    assert OccursAt(s, "abs", |p|);
    var i := IndexOf(s, "abs").value;
    assert i == |p|;
    assert s[..i] == p && s[i + 3..] == q;
  }

  /** A paper as the card receives it. */
  datatype PaperEntry = PaperEntry(title: string, url: string, author: Option<string>,
                                   publishedDate: Option<string>, summary: string)

  /** What one paper's card shows: the author line and the date only when present, and the PDF link for arXiv. */
  datatype PaperCard = PaperCard(title: string, authorLine: Option<string>, publishedDate: Option<string>,
                                 summary: string, url: string, pdfUrl: Option<string>)

  /** The card: a loading placeholder without a result, else the paper count and one card per paper. */
  datatype CardView = Loading | Papers(count: nat, cards: seq<PaperCard>)

  function PaperCardOf(p: PaperEntry): (c: PaperCard)
    ensures c.authorLine.Some? <==> Truthy(p.author)
    ensures c.authorLine.Some? ==> c.authorLine.value == AuthorLine(p.author.value)
    ensures c.publishedDate.Some? <==> Truthy(p.publishedDate)
    ensures c.pdfUrl == PdfUrl(p.url)
  {
    PaperCard(p.title, if Truthy(p.author) then Some(AuthorLine(p.author.value)) else None,
              if Truthy(p.publishedDate) then p.publishedDate else None,
              p.summary, p.url, PdfUrl(p.url))
  }

  function MapCards(ps: seq<PaperEntry>): (r: seq<PaperCard>)
    ensures |r| == |ps|
    ensures forall k :: 0 <= k < |ps| ==> r[k] == PaperCardOf(ps[k])
  {
    if ps == [] then [] else [PaperCardOf(ps[0])] + MapCards(ps[1..])
  }

  /** The card for the tool's result: loading until it arrives, then one card per paper, in order. */
  function Render(result: Option<seq<PaperEntry>>): (v: CardView)
    ensures v == Loading <==> result.None?
    ensures result.Some? ==> v.count == |result.value| && |v.cards| == |result.value|
    ensures result.Some? ==> forall k :: 0 <= k < |v.cards| ==> v.cards[k] == PaperCardOf(result.value[k])
  {
    match result
    case None => Loading
    case Some(papers) => Papers(|papers|, MapCards(papers))
  }
}
