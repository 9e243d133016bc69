/**
 * The academic-search tool: the papers the search provider returns are
 * deduplicated by URL, papers without a summary are skipped, the summary
 * loses a leading `Summary:` label and the title a trailing ` [...]` tag,
 * and at most ten papers are returned.
 */
module AcademicSearch {
  import opened Common
  import opened Strings

  /** A paper as the provider returns it: the fields the tool reads, and every other field in `rest`. */
  datatype Paper = Paper(
    id: Option<string>, url: string, title: Option<string>, summary: Option<string>,
    author: Option<string>, publishedDate: Option<string>, rest: map<string, Json>)

  /** A paper as the tool returns it (`{...paper, title, summary}`). */
  datatype CleanPaper = CleanPaper(
    id: Option<string>, url: string, title: string, summary: string,
    author: Option<string>, publishedDate: Option<string>, rest: map<string, Json>)

  const Label := "summary:"

  /** `s` starts with `Summary:` in any mix of upper and lower case. */
  predicate StartsWithLabel(s: string) {
    |s| >= |Label| && forall k :: 0 <= k < |Label| ==> LowerAscii(s[k]) == Label[k]
  }

  /** `summary.replace(/^Summary:\s*\/i, '')`: drop the label and the whitespace after it. */
  function StripLabel(s: string): (r: string)
    ensures |r| <= |s| && r == s[|s| - |r|..]
    ensures !StartsWithLabel(s) ==> r == s
    ensures StartsWithLabel(s) ==>
      && |r| <= |s| - |Label|
      && (r == [] || !IsWhitespace(r[0]))
      && forall k :: |Label| <= k < |s| - |r| ==> IsWhitespace(s[k])
  {
    if StartsWithLabel(s) then DropWhitespace(s[|Label|..]) else s
  }

  /**
   * `/\s\[.*?\]$/` matches at position i: a whitespace, `[`, any characters
   * other than line terminators, and `]` as the last character.
   */
  predicate TagAt(s: string, i: nat) {
    && i + 3 <= |s|
    && IsWhitespace(s[i]) && s[i + 1] == '[' && s[|s| - 1] == ']'
    && forall k :: i + 2 <= k < |s| - 1 ==> !IsLineTerminator(s[k])
  }

  /** The leftmost position at or after `from` where the tag pattern matches. */
  function FirstTag(s: string, from: nat): (r: Option<nat>)
    ensures r.Some? ==> from <= r.value && TagAt(s, r.value)
    ensures forall j :: from <= j && (r.None? || j < r.value) ==> !TagAt(s, j)
    decreases |s| - from
  {
    if from + 3 > |s| then None
    else if TagAt(s, from) then Some(from)
    else FirstTag(s, from + 1)
  }

  /**
   * `title.replace(/\s\[.*?\]$/, '')`: the title cut at the leftmost match of
   * the tag pattern, or unchanged when there is none.
   */
  function StripTag(s: string): (r: string)
    ensures |r| <= |s| && r == s[..|r|]
    ensures r == s <==> forall j :: 0 <= j ==> !TagAt(s, j)
    ensures r != s ==> TagAt(s, |r|) && forall j :: 0 <= j < |r| ==> !TagAt(s, j)
  {
    match FirstTag(s, 0)
    case None => s
    case Some(i) => s[..i]
  }

  /** A paper the tool can keep: its summary is present and non-empty. */
  predicate HasSummary(p: Paper) {
    Truthy(p.summary)
  }

  function Clean(p: Paper): CleanPaper
    requires HasSummary(p)
  {
    CleanPaper(
      p.id, p.url,
      if p.title.Some? then StripTag(p.title.value) else "",
      StripLabel(p.summary.value),
      p.author, p.publishedDate, p.rest)
  }

  /** Paper i is the first paper with a summary at its URL. */
  predicate FirstOfUrl(ps: seq<Paper>, i: nat)
    requires i < |ps|
  {
    HasSummary(ps[i]) && forall j :: 0 <= j < i ==> !(HasSummary(ps[j]) && ps[j].url == ps[i].url)
  }

  /** The papers the reduce keeps: each first summarised paper of its URL, cleaned, in input order. */
  function Survivors(ps: seq<Paper>): (r: seq<CleanPaper>)
    ensures |r| <= |ps|
  {
    if ps == [] then []
    else
      var i := |ps| - 1;
      Survivors(ps[..i]) + (if FirstOfUrl(ps, i) then [Clean(ps[i])] else [])
  }

  /** `acc.some((p) => p.url === url)`. */
  predicate AnyWithUrl(acc: seq<CleanPaper>, url: string) {
    exists c :: c in acc && c.url == url
  }

  /** A paper that is first with a summary at its URL in a prefix is so in the whole list. */
  lemma FirstOfUrlPrefix(ps: seq<Paper>, n: nat, i: nat)
    requires i < n <= |ps| && FirstOfUrl(ps[..n], i)
    ensures FirstOfUrl(ps, i)
  {
    assert forall j :: 0 <= j <= i ==> ps[..n][j] == ps[j];
  }

  /** The first paper with a summary at its URL is returned, cleaned. */
  lemma {:induction false} FirstOfUrlKept(ps: seq<Paper>, i: nat)
    requires i < |ps| && FirstOfUrl(ps, i)
    ensures Clean(ps[i]) in Survivors(ps)
  {
    var n := |ps| - 1;
    var front := ps[..n];
    if i < n {
      assert forall j :: 0 <= j <= i ==> front[j] == ps[j];
      assert FirstOfUrl(front, i);
      FirstOfUrlKept(front, i);
      assert Survivors(ps)[..|Survivors(front)|] == Survivors(front);
    }
  }

  /** The survivors' URLs are exactly the URLs of the papers that have a summary. */
  lemma SurvivorUrls(ps: seq<Paper>, url: string)
    ensures AnyWithUrl(Survivors(ps), url) <==>
      exists j :: 0 <= j < |ps| && HasSummary(ps[j]) && ps[j].url == url
  {
    if AnyWithUrl(Survivors(ps), url) {
      var c :| c in Survivors(ps) && c.url == url;
      var k :| 0 <= k < |Survivors(ps)| && Survivors(ps)[k] == c;
      var i := SurvivorOrigin(ps, k);
      assert HasSummary(ps[i]) && ps[i].url == url;
    }
    if exists j :: 0 <= j < |ps| && HasSummary(ps[j]) && ps[j].url == url {
      var i := FindFirst(ps, p => HasSummary(p) && p.url == url).value;
      assert FirstOfUrl(ps, i);
      FirstOfUrlKept(ps, i);
    }
  }

  /** No two returned papers share a URL. */
  lemma {:induction false} SurvivorsDistinct(ps: seq<Paper>)
    ensures forall a, b :: 0 <= a < b < |Survivors(ps)| ==> Survivors(ps)[a].url != Survivors(ps)[b].url
  {
    if ps != [] {
      var i := |ps| - 1;
      var front := ps[..i];
      SurvivorsDistinct(front);
      if FirstOfUrl(ps, i) {
        var s := Survivors(front);
        SurvivorUrls(front, ps[i].url);
        assert forall j :: 0 <= j < i ==> front[j] == ps[j];
        forall a | 0 <= a < |s| ensures s[a].url != ps[i].url {
          assert s[a] in s;
        }
      }
    }
  }

  /** The survivors of a list: those of all but its last paper, then the last paper when it is kept. */
  lemma SurvivorsLast(ps: seq<Paper>)
    requires ps != []
    ensures var n := |ps| - 1; var sf := Survivors(ps[..n]);
      && |Survivors(ps)| == |sf| + (if FirstOfUrl(ps, n) then 1 else 0)
      && (forall k :: 0 <= k < |sf| ==> Survivors(ps)[k] == sf[k])
      && (FirstOfUrl(ps, n) ==> Survivors(ps)[|sf|] == Clean(ps[n]))
  {
  }

  /** The position of the paper that returned paper k was cleaned from. */
  lemma {:induction false} SurvivorOrigin(ps: seq<Paper>, k: nat) returns (i: nat)
    requires k < |Survivors(ps)|
    ensures i < |ps| && FirstOfUrl(ps, i) && Survivors(ps)[k] == Clean(ps[i])
  {
    var n := |ps| - 1;
    var front := ps[..n];
    var sf := Survivors(front);
    SurvivorsLast(ps);
    if k < |sf| {
      i := SurvivorOrigin(front, k);
      FirstOfUrlPrefix(ps, n, i);
      assert front[i] == ps[i];
    } else {
      i := n;
    }
  }

  /**
   * Each returned paper is the cleaned form of the first paper with a
   * summary at its URL.
   */
  lemma SurvivorsOrigin(ps: seq<Paper>, k: nat)
    requires k < |Survivors(ps)|
    ensures exists i: nat :: i < |ps| && FirstOfUrl(ps, i) && Survivors(ps)[k] == Clean(ps[i])
  {
    var i := SurvivorOrigin(ps, k);
  }

  /**
   * Every returned paper comes from a provider paper with a non-empty
   * summary: the summary with the label removed, the title with its tag
   * removed ('' when absent), and every other field passed on unchanged.
   */
  lemma SurvivorFields(ps: seq<Paper>, k: nat)
    requires k < |Survivors(ps)|
    ensures exists i :: (0 <= i < |ps| && HasSummary(ps[i])
      && var c := Survivors(ps)[k];
      && c.summary == StripLabel(ps[i].summary.value)
      && c.title == (if ps[i].title.Some? then StripTag(ps[i].title.value) else "")
      && c.url == ps[i].url && c.id == ps[i].id && c.author == ps[i].author
      && c.publishedDate == ps[i].publishedDate && c.rest == ps[i].rest)
  {
    var i := SurvivorOrigin(ps, k);
  }

  /** One step of the reduce: paper i is kept exactly when it has a summary and no kept paper has its URL. */
  lemma SurvivorsStep(ps: seq<Paper>, i: nat)
    requires i < |ps|
    ensures Survivors(ps[..i + 1]) == Survivors(ps[..i]) +
      (if !AnyWithUrl(Survivors(ps[..i]), ps[i].url) && HasSummary(ps[i]) then [Clean(ps[i])] else [])
  {
    var q := ps[..i + 1];
    assert q[..i] == ps[..i];
    SurvivorUrls(ps[..i], ps[i].url);
    assert forall j :: 0 <= j < i ==> q[j] == ps[..i][j];
    assert FirstOfUrl(q, i) <==> !AnyWithUrl(Survivors(ps[..i]), ps[i].url) && HasSummary(ps[i]);
  }

  /** The tool's reduce: keep a paper unless its URL is already kept or it has no summary. */
  method DedupeAndClean(papers: seq<Paper>) returns (acc: seq<CleanPaper>)
    ensures acc == Survivors(papers)
  {
    acc := [];
    var i := 0;
    while i < |papers|
      invariant 0 <= i <= |papers|
      invariant acc == Survivors(papers[..i])
    {
      var paper := papers[i];
      SurvivorsStep(papers, i);
      if !AnyWithUrl(acc, paper.url) && HasSummary(paper) {
        acc := acc + [Clean(paper)];
      }
      i := i + 1;
    }
    assert papers[..i] == papers;
  }

  /** The tool's result: at most ten cleaned papers, or the provider's error rethrown. */
  method Execute(response: Result<seq<Paper>, string>) returns (r: Result<seq<CleanPaper>, string>)
    ensures response.Err? ==> r == Err(response.error)
    ensures response.Ok? ==> r.Ok? && r.value == Take(Survivors(response.value), 10)
    ensures r.Ok? ==> |r.value| <= 10
  {
    if response.Err? {
      return Err(response.error);
    }
    var processed := DedupeAndClean(response.value);
    r := Ok(Take(processed, 10));
  }

  /**
   * A summary that is only the label (in any case), possibly followed by
   * whitespace, passes the summary check, so the paper is kept, and its
   * summary comes out empty.
   */
  lemma LabelOnlySummaryBecomesEmpty(p: Paper)
    requires p.summary.Some? && StartsWithLabel(p.summary.value)
    requires forall k :: |Label| <= k < |p.summary.value| ==> IsWhitespace(p.summary.value[k])
    ensures HasSummary(p) && Survivors([p]) == [Clean(p)] && Clean(p).summary == ""
  {
    assert [p][..0] == [];
  }
}
