/** `main`: the collection page, the article cards on it, and the downloads the
    crawl issues for each article, in order. */
module Crawl {
  import opened Wrappers
  import opened Strings
  import opened Sanitize
  import opened Download
  import opened Links
  import opened Sequences

  const CollectionUrl := "https://www.nature.com/collections/gxfyskqtkm"
  /** The site the cards' relative title links are resolved against. */
  const BaseSite := "https://www.nature.com"

  const PdfPrefix := "PDF_"
  const SuppPrefix := "Supp_"
  const PeerPrefix := "PeerReview_"

  /** What every collection folder name starts with. */
  const CollectionLabel := "Nature Collection "

  /** `"Nature Collection " + collection_url.strip('/').split('/')[-1]`: the
      folder every article folder goes under. */
  function CollectionName(url: string): (name: string)
    ensures StartsWith(name, CollectionLabel)
    ensures '/' !in name
  {
    var last := AfterLast(Trim(url, c => c == '/'), '/');
    AfterLastIsSuffix(Trim(url, c => c == '/'), '/');
    LabelKeepsNoSlash(last);
    CollectionLabel + last
  }

  lemma LabelKeepsNoSlash(last: string)
    requires '/' !in last
    ensures '/' !in CollectionLabel + last
  {
    assert forall k :: 0 <= k < |CollectionLabel| ==> CollectionLabel[k] != '/';
    var name := CollectionLabel + last;
    forall k | 0 <= k < |name| ensures name[k] != '/' {
      if k < |CollectionLabel| {
        assert name[k] == CollectionLabel[k];
      } else {
        assert name[k] == last[k - |CollectionLabel|];
      }
    }
  }

  /** The collection folder is named after the URL's last path segment. */
  lemma CollectionNameOfPath(head: string, last: string)
    requires head != [] && head[0] != '/'
    requires last != [] && '/' !in last
    ensures CollectionName(head + "/" + last) == CollectionLabel + last
  {
    var url := head + "/" + last;
    assert url[0] == head[0];
    assert url[|url| - 1] == last[|last| - 1];
    assert last[|last| - 1] in last;
    TrimUnchanged(url, c => c == '/');
    assert url == head + ['/'] + last;
    AfterLastOfJoin(head, '/', last);
  }

  /** The folder the script's own collection URL gives. */
  lemma ScriptFolder(url: string)
    requires url == CollectionUrl
    ensures CollectionName(url) == "Nature Collection gxfyskqtkm"
  {
    var head, last := ScriptUrlParts(url);
    CollectionNameOfPath(head, last);
  }

  lemma ScriptUrlParts(url: string) returns (head: string, last: string)
    requires url == CollectionUrl
    ensures url == head + "/" + last && CollectionLabel + last == "Nature Collection gxfyskqtkm"
    ensures head != [] && head[0] != '/' && last != [] && '/' !in last
  {
    head, last := "https://www.nature.com/collections", "gxfyskqtkm";
    assert url == head + "/" + last;
  }

  /** The title link of a card: the `<a>` inside its `h3`/`h2` of class `c-card__title`. */
  datatype TitleLink = TitleLink(
    strippedText: string,  // `title_tag.a.get_text(strip=True)`
    hasHref: bool,
    href: string)

  /** An `<article>` element of the collection page. */
  datatype Card = Card(
    fullHeight: bool,         // its classes include `u-full-height`
    cCard: bool,              // its classes include `c-card`
    title: Option<TitleLink>) // None when there is no title tag or it holds no link

  /** The collection page: the request raised, or the page parsed into its cards. */
  datatype CollectionPage = CollectionError | Collection(cards: seq<Card>)

  predicate HasClass(card: Card, primary: bool)
  {
    if primary then card.fullHeight else card.cCard
  }

  /** `soup.find_all('article', class_=...)`: the cards with the class, in order. */
  function WithClass(cards: seq<Card>, primary: bool): (r: seq<Card>)
    ensures |r| <= |cards|
    ensures forall c :: c in r <==> c in cards && HasClass(c, primary)
    ensures r == [] <==> forall k :: 0 <= k < |cards| ==> !HasClass(cards[k], primary)
  {
    if cards == [] then []
    else (if HasClass(cards[0], primary) then [cards[0]] else []) + WithClass(cards[1..], primary)
  }

  /** The cards of the class keep their page order. */
  lemma {:induction false} WithClassAppend(a: seq<Card>, b: seq<Card>, primary: bool)
    ensures WithClass(a + b, primary) == WithClass(a, primary) + WithClass(b, primary)
    decreases |a|
  {
    if a == [] {
      assert a + b == b;
    } else {
      TailOfAppend(a, b);
      WithClassAppend(a[1..], b, primary);
      var head := if HasClass(a[0], primary) then [a[0]] else [];
      AppendAssoc(head, WithClass(a[1..], primary), WithClass(b, primary));
    }
  }

  /** The article cards `main` walks: the `u-full-height` ones, or the `c-card`
      ones when there are none. */
  function SelectArticles(cards: seq<Card>): (articles: seq<Card>)
    ensures forall k :: 0 <= k < |articles| ==> articles[k] in cards
    ensures var primary := exists k :: 0 <= k < |cards| && cards[k].fullHeight;
            forall c :: c in articles <==> c in cards && HasClass(c, primary)
    ensures (exists k :: 0 <= k < |cards| && cards[k].fullHeight) ==>
              articles != [] && forall k :: 0 <= k < |articles| ==> articles[k].fullHeight
    ensures (forall k :: 0 <= k < |cards| ==> !cards[k].fullHeight) ==>
              forall k :: 0 <= k < |articles| ==> articles[k].cCard
  {
    var primary := WithClass(cards, true);
    if primary != [] then primary else WithClass(cards, false)
  }

  /** Position of a prefix in the fixed download order. */
  function KindRank(prefix: string): nat
  {
    if prefix == PdfPrefix then 0 else if prefix == SuppPrefix then 1 else 2
  }

  /** The link-map key a file prefix downloads. */
  function KeyFor(prefix: string): string
  {
    if prefix == PdfPrefix then PdfKey else if prefix == SuppPrefix then SuppKey else PeerKey
  }

  /** The `download_file` calls for one article's link map: one per kind of link
      the map holds, PDF first, then supplementary, then peer review. */
  function Issue(links: map<string, string>, folder: string, title: string): (reqs: seq<Request>)
    ensures |reqs| <= 3
    ensures forall i :: 0 <= i < |reqs| ==>
              && reqs[i].folder == folder && reqs[i].base == title
              && reqs[i].prefix in {PdfPrefix, SuppPrefix, PeerPrefix}
              && KeyFor(reqs[i].prefix) in links && reqs[i].url == links[KeyFor(reqs[i].prefix)]
    ensures forall i, j :: 0 <= i < j < |reqs| ==> KindRank(reqs[i].prefix) < KindRank(reqs[j].prefix)
    ensures PdfKey in links ==> Request(links[PdfKey], folder, PdfPrefix, title) in reqs
    ensures SuppKey in links ==> Request(links[SuppKey], folder, SuppPrefix, title) in reqs
    ensures PeerKey in links ==> Request(links[PeerKey], folder, PeerPrefix, title) in reqs
  {
    IssueKind(links, PdfKey, PdfPrefix, folder, title)
    + IssueKind(links, SuppKey, SuppPrefix, folder, title)
    + IssueKind(links, PeerKey, PeerPrefix, folder, title)
  }

  /** The one download of a kind of link, when the map holds one. */
  function IssueKind(links: map<string, string>, key: string, prefix: string, folder: string, title: string)
    : seq<Request>
  {
    if key in links then [Request(links[key], folder, prefix, title)] else []
  }

  /** The downloads `main` issues for one article card: none when the card has no
      title link, its page raised `KeyError`, or the page offered none of the three
      kinds of link. */
  function ArticleRequests(card: Card, collectionName: string, pages: string -> ArticlePage,
                           urljoin: (string, string) -> string): (reqs: seq<Request>)
    ensures |reqs| <= 3
    ensures reqs == [] <==>
              || card.title.None?
              || !card.title.value.hasHref
              || var link := urljoin(BaseSite, card.title.value.href);
                 var found := SelectLinks(pages(link), link, urljoin);
                 found.Raised? || found.links == map[]
    ensures forall i :: 0 <= i < |reqs| ==>
              && reqs[i].base == SanitizeFilename(card.title.value.strippedText)
              && reqs[i].folder == PathJoin(collectionName, reqs[i].base)
              && reqs[i].prefix in {PdfPrefix, SuppPrefix, PeerPrefix}
  {
    match card.title
    case None => []
    case Some(t) =>
      if !t.hasHref then []
      else
        var link := urljoin(BaseSite, t.href);
        Downloads(SelectLinks(pages(link), link, urljoin), collectionName, SanitizeFilename(t.strippedText))
  }

  /** The downloads for an article whose page gave `found`: none when the page
      raised or offered no link, else one per kind of link found. */
  function Downloads(found: Extraction, collectionName: string, title: string): (reqs: seq<Request>)
    ensures found.Raised? ==> reqs == []
    ensures found.Extracted? && found.links.Keys <= {PdfKey, SuppKey, PeerKey} ==>
              (reqs == [] <==> found.links == map[])
  {
    match found
    case Raised => []
    case Extracted(links) =>
      if links == map[] then []
      else
        var folder := PathJoin(collectionName, title);
        IssueEmpty(links, folder, title);
        Issue(links, folder, title)
  }

  /** The downloads `main` issues for the cards, in order. */
  function PlanArticles(articles: seq<Card>, collectionName: string, pages: string -> ArticlePage,
                        urljoin: (string, string) -> string): (reqs: seq<Request>)
    ensures |reqs| <= 3 * |articles|
    ensures forall i :: 0 <= i < |reqs| ==>
              && '/' !in reqs[i].base
              && reqs[i].folder == PathJoin(collectionName, reqs[i].base)
              && reqs[i].prefix in {PdfPrefix, SuppPrefix, PeerPrefix}
    decreases |articles|
  {
    if articles == [] then []
    else PlanArticles(articles[..|articles| - 1], collectionName, pages, urljoin)
         + ArticleRequests(articles[|articles| - 1], collectionName, pages, urljoin)
  }

  /** The downloads one run of `main` issues when crawling `collectionUrl`. */
  function Plan(collectionUrl: string, page: CollectionPage, pages: string -> ArticlePage,
                urljoin: (string, string) -> string): (reqs: seq<Request>)
    ensures page.CollectionError? ==> reqs == []
    ensures page.Collection? ==> |reqs| <= 3 * |page.cards|
    ensures forall i :: 0 <= i < |reqs| ==>
              && '/' !in reqs[i].base
              && reqs[i].folder == PathJoin(CollectionName(collectionUrl), reqs[i].base)
              && reqs[i].prefix in {PdfPrefix, SuppPrefix, PeerPrefix}
  {
    if page.CollectionError? then []
    else PlanArticles(SelectArticles(page.cards), CollectionName(collectionUrl), pages, urljoin)
  }

  /** The three `download_file` calls of one article, each made only when its
      kind of link was found. */
  method DownloadArticle(d: Downloader, links: map<string, string>, folder: string, title: string,
                         net: string -> FileFetch)
    returns (reqs: seq<Request>)
    modifies d
    ensures reqs == Issue(links, folder, title)
    ensures d.State() == ExecAll(old(d.State()), Transfers(reqs), net)
  {
    var pdf := DownloadKind(d, links, PdfKey, PdfPrefix, folder, title, net);
    var supp := DownloadKind(d, links, SuppKey, SuppPrefix, folder, title, net);
    ExecAllAppend(old(d.State()), Transfers(pdf), Transfers(supp), net);
    MapAppend(pdf, supp, TransferOf);
    reqs := pdf + supp;
    var peer := DownloadKind(d, links, PeerKey, PeerPrefix, folder, title, net);
    ExecAllAppend(old(d.State()), Transfers(reqs), Transfers(peer), net);
    MapAppend(reqs, peer, TransferOf);
    reqs := reqs + peer;
  }

  /** `if key in download_links: download_file(...)` for one kind of link. */
  method DownloadKind(d: Downloader, links: map<string, string>, key: string, prefix: string,
                      folder: string, title: string, net: string -> FileFetch)
    returns (reqs: seq<Request>)
    modifies d
    ensures reqs == IssueKind(links, key, prefix, folder, title)
    ensures d.State() == ExecAll(old(d.State()), Transfers(reqs), net)
  {
    reqs := [];
    if key in links {
      var req := Request(links[key], folder, prefix, title);
      ExecRequestsSnoc(old(d.State()), reqs, req, net);
      var _ := d.DownloadFile(links[key], folder, prefix, title, net);
      reqs := [req];
    }
  }

  /** One pass of `main`'s article loop: an article without a title link, whose
      page raised, or with no download link is skipped. */
  method CrawlArticle(d: Downloader, article: Card, collectionName: string, pages: string -> ArticlePage,
                      net: string -> FileFetch, urljoin: (string, string) -> string)
    returns (reqs: seq<Request>)
    modifies d
    ensures reqs == ArticleRequests(article, collectionName, pages, urljoin)
    ensures d.State() == ExecAll(old(d.State()), Transfers(reqs), net)
  {
    reqs := [];
    if article.title.None? {
      return;
    }
    var titleLink := article.title.value;
    if !titleLink.hasHref {
      return;
    }
    var articleLink := urljoin(BaseSite, titleLink.href);
    var sanitizedTitle := SanitizeFilename(titleLink.strippedText);
    var articleFolder := PathJoin(collectionName, sanitizedTitle);
    var downloadLinks := GetAllDownloadLinks(pages(articleLink), articleLink, urljoin);
    if downloadLinks.Raised? {
      return;
    }
    var links := downloadLinks.links;
    if links == map[] {
      return;
    }
    reqs := DownloadArticle(d, links, articleFolder, sanitizedTitle, net);
  }

  lemma PlanArticlesStep(articles: seq<Card>, i: nat, collectionName: string, pages: string -> ArticlePage,
                         urljoin: (string, string) -> string)
    requires i < |articles|
    ensures PlanArticles(articles[..i + 1], collectionName, pages, urljoin)
            == PlanArticles(articles[..i], collectionName, pages, urljoin)
               + ArticleRequests(articles[i], collectionName, pages, urljoin)
  {
    assert articles[..i + 1][..i] == articles[..i];
  }

  /** `main()`, which crawls `CollectionUrl`: `d` is the filesystem and the session,
      `page` the collection page, `pages` the article pages and `net` the file fetches. */
  method Run(d: Downloader, collectionUrl: string, page: CollectionPage, pages: string -> ArticlePage,
             net: string -> FileFetch, urljoin: (string, string) -> string)
    returns (issued: seq<Request>)
    modifies d
    ensures issued == Plan(collectionUrl, page, pages, urljoin)
    ensures d.State() == ExecAll(old(d.State()), Transfers(issued), net)
  {
    issued := [];
    var collectionName := CollectionName(collectionUrl);
    if page.CollectionError? {
      return;
    }
    var articles := SelectArticles(page.cards);
    if articles == [] {
      return;
    }
    var i := 0;
    while i < |articles|
      invariant 0 <= i <= |articles|
      invariant issued == PlanArticles(articles[..i], collectionName, pages, urljoin)
      invariant d.State() == ExecAll(old(d.State()), Transfers(issued), net)
    {
      var reqs := CrawlArticle(d, articles[i], collectionName, pages, net, urljoin);
      ExecAllAppend(old(d.State()), Transfers(issued), Transfers(reqs), net);
      MapAppend(issued, reqs, TransferOf);
      PlanArticlesStep(articles, i, collectionName, pages, urljoin);
      issued := issued + reqs;
      i := i + 1;
    }
    assert articles[..i] == articles;
  }

  /** With only the three known keys, a link map yields no download exactly when
      it is empty. */
  lemma IssueEmpty(links: map<string, string>, folder: string, title: string)
    ensures links.Keys <= {PdfKey, SuppKey, PeerKey} ==> (Issue(links, folder, title) == [] <==> links == map[])
  {
    if links != map[] && links.Keys <= {PdfKey, SuppKey, PeerKey} {
      var key :| key in links;
      assert key == PdfKey || key == SuppKey || key == PeerKey;
    }
  }

  /** The directory level an article adds under its collection folder. */
  function ArticleDir(title: string): string
  {
    if title == [] then [] else title + "/"
  }

  /** Where a download lands, given its folder was joined under `name`:
      `<name>/<title>/<prefix><title>.<ext>`, or `<name>/<prefix>.<ext>` when the
      sanitized title is empty. */
  lemma RequestFileLayout(req: Request, name: string)
    requires name != [] && '/' !in name
    requires '/' !in req.base
    requires req.folder == PathJoin(name, req.base)
    requires req.prefix in {PdfPrefix, SuppPrefix, PeerPrefix}
    ensures LocalPath(req) == name + "/" + ArticleDir(req.base) + LocalFilename(req.prefix, req.base, req.url)
  {
    var file := LocalFilename(req.prefix, req.base, req.url);
    PrefixNotAbsolute(req.prefix);
    assert file[0] == req.prefix[0];
    JoinRelative(name, req.base);
    var top := name + "/";
    if req.base == [] {
      assert req.folder == top;
      JoinRelative(req.folder, file);
      assert top + ArticleDir(req.base) == top;
    } else {
      assert req.folder == top + req.base;
      JoinRelative(req.folder, file);
      assert top + req.base + "/" == top + ArticleDir(req.base);
    }
  }

  /** `os.path.join(a, b)` for a relative `b`. */
  lemma JoinRelative(a: string, b: string)
    requires b == [] || b[0] != '/'
    ensures a == [] || a[|a| - 1] == '/' ==> PathJoin(a, b) == a + b
    ensures a != [] && a[|a| - 1] != '/' ==> PathJoin(a, b) == a + "/" + b
  {
    assert !StartsWith(b, "/");
  }

  lemma PrefixNotAbsolute(prefix: string)
    requires prefix in {PdfPrefix, SuppPrefix, PeerPrefix}
    ensures prefix != [] && prefix[0] != '/'
  {
  }

  /** Every download of a crawl of `<head>/<last>` lands at
      `Nature Collection <last>/<title>/<prefix><title>.<ext>`, without the
      `<title>/` level when the sanitized title is empty; for `CollectionUrl` the
      folder is `Nature Collection gxfyskqtkm`. */
  lemma PlanFileLayout(head: string, last: string, page: CollectionPage, pages: string -> ArticlePage,
                       urljoin: (string, string) -> string, i: nat)
    requires head != [] && head[0] != '/'
    requires last != [] && '/' !in last
    requires i < |Plan(head + "/" + last, page, pages, urljoin)|
    ensures var req := Plan(head + "/" + last, page, pages, urljoin)[i];
            LocalPath(req) == CollectionLabel + last + "/" + ArticleDir(req.base)
                              + LocalFilename(req.prefix, req.base, req.url)
  {
    var name := CollectionName(head + "/" + last);
    CollectionNameOfPath(head, last);
    var req := Plan(head + "/" + last, page, pages, urljoin)[i];
    RequestFileLayout(req, name);
  }

  /** Crawling a second time against unchanged pages creates no file the first
      crawl did not; when every first-run fetch got as far as creating its file,
      it also requests no file URL again. */
  lemma CrawlTwice(d: Disk, collectionUrl: string, page: CollectionPage, pages: string -> ArticlePage,
                   net: string -> FileFetch, urljoin: (string, string) -> string)
    ensures var plan := Plan(collectionUrl, page, pages, urljoin);
            var once := ExecAll(d, Transfers(plan), net);
            ExecAll(once, Transfers(plan), net).files == once.files
    ensures var plan := Plan(collectionUrl, page, pages, urljoin);
            var once := ExecAll(d, Transfers(plan), net);
            (forall i :: 0 <= i < |plan| ==> net(plan[i].url) != FetchFailed) ==>
              ExecAll(once, Transfers(plan), net) == once
  {
    var plan := Plan(collectionUrl, page, pages, urljoin);
    RerunKeepsFiles(d, Transfers(plan), net);
    if forall i :: 0 <= i < |plan| ==> net(plan[i].url) != FetchFailed {
      forall i | 0 <= i < |Transfers(plan)|
        ensures net(Transfers(plan)[i].url) != FetchFailed
      {
      }
      RerunChangesNothing(d, Transfers(plan), net);
    }
  }
}
