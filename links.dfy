/** `get_all_download_links`: which anchors of an article page become the
    `pdf`, `supp` and `peer` download links. */
module Links {
  import opened Wrappers
  import opened Strings
  import opened Sequences

  const PdfKey := "pdf"
  const SuppKey := "supp"
  const PeerKey := "peer"

  /** One `<a>` element of an article page, as the HTML parser presents it. */
  datatype Anchor = Anchor(
    pdfMarked: bool,       // its classes include `c-pdf-download__link`
    text: string,          // `a.get_text()`
    strippedText: string,  // `a.get_text(strip=True)`
    hasHref: bool,         // it carries an `href` attribute
    href: string)

  /** The article page as fetched: the request (with its retries) or its status
      check raised, or the page parsed into its anchors in document order. */
  datatype ArticlePage = PageError | Page(anchors: seq<Anchor>)

  /** What `get_all_download_links` produces: the link map it returns, or the
      `KeyError` that escapes it when the class-marked anchor has no `href`. */
  datatype Extraction = Extracted(links: map<string, string>) | Raised

  /** The four searches the function makes. */
  datatype Rule = PdfMarker | PdfFallback | SuppRule | PeerRule

  predicate Matches(rule: Rule, a: Anchor)
  {
    match rule
    case PdfMarker => a.pdfMarked
    case PdfFallback => Contains(a.text, "Download PDF") || EndsWith(a.href, ".pdf")
    case SuppRule => Contains(a.strippedText, "Supplementary Information")
    case PeerRule => Contains(a.strippedText, "Peer Review File")
  }

  /** `soup.find_all('a', href=True)`: the anchors that carry an `href`, in order. */
  function WithHref(anchors: seq<Anchor>): (tags: seq<Anchor>)
    ensures |tags| <= |anchors|
    ensures forall k :: 0 <= k < |tags| ==> tags[k].hasHref
  {
    if anchors == [] then []
    else (if anchors[0].hasHref then [anchors[0]] else []) + WithHref(anchors[1..])
  }

  /** `find_all('a', href=True)` keeps exactly the anchors that carry an `href`. */
  lemma {:induction false} WithHrefKeeps(anchors: seq<Anchor>)
    ensures forall a :: a in WithHref(anchors) <==> a in anchors && a.hasHref
    decreases |anchors|
  {
    if anchors != [] {
      WithHrefKeeps(anchors[1..]);
      assert anchors == [anchors[0]] + anchors[1..];
    }
  }

  /** The anchors with an `href` keep their page order. */
  lemma {:induction false} WithHrefAppend(a: seq<Anchor>, b: seq<Anchor>)
    ensures WithHref(a + b) == WithHref(a) + WithHref(b)
    decreases |a|
  {
    if a == [] {
      assert a + b == b;
    } else {
      TailOfAppend(a, b);
      WithHrefAppend(a[1..], b);
      var head := if a[0].hasHref then [a[0]] else [];
      AppendAssoc(head, WithHref(a[1..]), WithHref(b));
    }
  }

  /** The position of the first element that satisfies `rule`, if any. */
  function FirstMatch(xs: seq<Anchor>, rule: Rule): (r: Option<nat>)
    ensures r.Some? ==> r.value < |xs| && Matches(rule, xs[r.value])
    ensures r.Some? ==> forall j :: 0 <= j < r.value ==> !Matches(rule, xs[j])
    ensures r.None? ==> forall j :: 0 <= j < |xs| ==> !Matches(rule, xs[j])
  {
    if xs == [] then None
    else if Matches(rule, xs[0]) then Some(0)
    else match FirstMatch(xs[1..], rule)
      case None => None
      case Some(k) => Some(k + 1)
  }

  /** The one-entry map a first-match-wins search over `tags` contributes. */
  function Found(tags: seq<Anchor>, rule: Rule, key: string, base: string,
                 urljoin: (string, string) -> string): map<string, string>
  {
    match FirstMatch(tags, rule)
    case None => map[]
    case Some(k) => map[key := urljoin(base, tags[k].href)]
  }

  /** What `get_all_download_links(session, article_url)` yields for a page. */
  function SelectLinks(page: ArticlePage, base: string, urljoin: (string, string) -> string): (r: Extraction)
    ensures r.Extracted? ==> r.links.Keys <= {PdfKey, SuppKey, PeerKey}
    ensures page.PageError? ==> r == Extracted(map[])
  {
    if page.PageError? then Extracted(map[])
    else
      var tags := WithHref(page.anchors);
      match FirstMatch(page.anchors, PdfMarker)
      case Some(i) =>
        if !page.anchors[i].hasHref then Raised
        else Extracted(map[PdfKey := urljoin(base, page.anchors[i].href)]
                   + Found(tags, SuppRule, SuppKey, base, urljoin)
                   + Found(tags, PeerRule, PeerKey, base, urljoin))
      case None =>
        Extracted(Found(tags, PdfFallback, PdfKey, base, urljoin)
              + Found(tags, SuppRule, SuppKey, base, urljoin)
              + Found(tags, PeerRule, PeerKey, base, urljoin))
  }

  /** One of the function's `for a in all_a_tags: if ...: links[key] = urljoin(article_url,
      a['href']); break` loops: the first tag satisfying `rule` sets `key`. */
  method AddFirstMatch(allATags: seq<Anchor>, rule: Rule, key: string, articleUrl: string,
                       urljoin: (string, string) -> string, links: map<string, string>)
    returns (updated: map<string, string>)
    ensures updated == links + Found(allATags, rule, key, articleUrl, urljoin)
  {
    updated := links;
    var i := 0;
    while i < |allATags|
      invariant 0 <= i <= |allATags|
      invariant forall j :: 0 <= j < i ==> !Matches(rule, allATags[j])
      invariant updated == links
    {
      if Matches(rule, allATags[i]) {
        updated := updated[key := urljoin(articleUrl, allATags[i].href)];
        assert FirstMatch(allATags, rule) == Some(i);
        return;
      }
      i := i + 1;
    }
  }

  /** `get_all_download_links(session, article_url)`, with the fetched page given. */
  method GetAllDownloadLinks(page: ArticlePage, articleUrl: string, urljoin: (string, string) -> string)
    returns (r: Extraction)
    ensures r == SelectLinks(page, articleUrl, urljoin)
  {
    var links: map<string, string> := map[];
    if page.PageError? {
      return Extracted(links);
    }
    var allATags := WithHref(page.anchors);
    var pdfTag := FirstMatch(page.anchors, PdfMarker);
    if pdfTag.Some? {
      var tag := page.anchors[pdfTag.value];
      if !tag.hasHref {
        return Raised;
      }
      links := links[PdfKey := urljoin(articleUrl, tag.href)];
    } else {
      links := AddFirstMatch(allATags, PdfFallback, PdfKey, articleUrl, urljoin, links);
      assert links == Found(allATags, PdfFallback, PdfKey, articleUrl, urljoin);
    }
    links := AddFirstMatch(allATags, SuppRule, SuppKey, articleUrl, urljoin, links);
    links := AddFirstMatch(allATags, PeerRule, PeerKey, articleUrl, urljoin, links);
    return Extracted(links);
  }

  /** The key each search fills. */
  function KeyOf(rule: Rule): string
  {
    match rule
    case PdfMarker => PdfKey
    case PdfFallback => PdfKey
    case SuppRule => SuppKey
    case PeerRule => PeerKey
  }

  /** An anchor a search over `all_a_tags` can pick: it has an `href` and satisfies the rule. */
  predicate Usable(rule: Rule, a: Anchor)
  {
    a.hasHref && Matches(rule, a)
  }

  /** When no tag satisfies the rule, no anchor of the page is usable. */
  lemma {:induction false} NoTagNoAnchor(anchors: seq<Anchor>, rule: Rule)
    requires FirstMatch(WithHref(anchors), rule).None?
    ensures forall j :: 0 <= j < |anchors| ==> !Usable(rule, anchors[j])
  {
    if anchors != [] {
      var tags := WithHref(anchors);
      var rest := WithHref(anchors[1..]);
      if anchors[0].hasHref {
        assert tags == [anchors[0]] + rest;
        TailOfAppend([anchors[0]], rest);
      } else {
        assert tags == rest;
      }
      NoTagNoAnchor(anchors[1..], rule);
      forall j | 0 < j < |anchors| ensures !Usable(rule, anchors[j]) {
        assert anchors[j] == anchors[1..][j - 1];
      }
    }
  }

  /** The tag a search picks is the page's earliest usable anchor. */
  lemma {:induction false} FirstTagIsEarliestAnchor(anchors: seq<Anchor>, rule: Rule) returns (j: nat)
    requires FirstMatch(WithHref(anchors), rule).Some?
    ensures j < |anchors| && Usable(rule, anchors[j])
    ensures anchors[j] == WithHref(anchors)[FirstMatch(WithHref(anchors), rule).value]
    ensures forall i :: 0 <= i < j ==> !Usable(rule, anchors[i])
  {
    if Usable(rule, anchors[0]) {
      FirstTagHead(anchors, rule);
      return 0;
    }
    FirstTagPastHead(anchors, rule);
    var k := FirstTagIsEarliestAnchor(anchors[1..], rule);
    j := k + 1;
    forall i | 0 < i < j ensures !Usable(rule, anchors[i]) {
      assert anchors[i] == anchors[1..][i - 1];
    }
  }

  /** A usable first anchor is the first tag the search picks. */
  lemma FirstTagHead(anchors: seq<Anchor>, rule: Rule)
    requires anchors != [] && Usable(rule, anchors[0])
    ensures FirstMatch(WithHref(anchors), rule) == Some(0)
    ensures WithHref(anchors)[0] == anchors[0]
  {
    TailOfAppend([anchors[0]], WithHref(anchors[1..]));
  }

  /** Past an unusable first anchor, the search picks the same tag among the rest. */
  lemma FirstTagPastHead(anchors: seq<Anchor>, rule: Rule)
    requires anchors != [] && !Usable(rule, anchors[0])
    requires FirstMatch(WithHref(anchors), rule).Some?
    ensures FirstMatch(WithHref(anchors[1..]), rule).Some?
    ensures WithHref(anchors)[FirstMatch(WithHref(anchors), rule).value]
            == WithHref(anchors[1..])[FirstMatch(WithHref(anchors[1..]), rule).value]
  {
    var rest := WithHref(anchors[1..]);
    if anchors[0].hasHref {
      TailOfAppend([anchors[0]], rest);
    } else {
      assert WithHref(anchors) == rest;
    }
  }

  /** A class-marked anchor with an `href` decides the `pdf` link, whatever
      other anchors mention PDFs; a marked anchor without one raises. */
  lemma MarkedAnchorWins(page: ArticlePage, base: string, urljoin: (string, string) -> string, i: nat)
    requires page.Page? && i < |page.anchors| && page.anchors[i].pdfMarked
    requires forall j :: 0 <= j < i ==> !page.anchors[j].pdfMarked
    ensures page.anchors[i].hasHref ==>
              SelectLinks(page, base, urljoin).Extracted?
              && PdfKey in SelectLinks(page, base, urljoin).links
              && SelectLinks(page, base, urljoin).links[PdfKey] == urljoin(base, page.anchors[i].href)
    ensures !page.anchors[i].hasHref ==> SelectLinks(page, base, urljoin).Raised?
  {
    assert FirstMatch(page.anchors, PdfMarker) == Some(i);
    assert SuppKey != PdfKey && PeerKey != PdfKey;
  }

  /** Only a class-marked first anchor without an `href` makes the function raise. */
  lemma RaisesOnlyOnMarkedWithoutHref(page: ArticlePage, base: string, urljoin: (string, string) -> string)
    requires page.PageError? || forall i :: 0 <= i < |page.anchors| && page.anchors[i].pdfMarked ==>
                                              page.anchors[i].hasHref
    ensures SelectLinks(page, base, urljoin).Extracted?
  {
  }

  /** Outside the class-marked case, each kind comes from the earliest usable
      anchor, and is absent exactly when no anchor is usable. */
  lemma KindFromEarliestAnchor(page: ArticlePage, base: string, urljoin: (string, string) -> string, rule: Rule)
    requires page.Page? && SelectLinks(page, base, urljoin).Extracted?
    requires rule != PdfMarker
    requires rule == PdfFallback ==> forall i :: 0 <= i < |page.anchors| ==> !page.anchors[i].pdfMarked
    ensures var links := SelectLinks(page, base, urljoin).links;
            KeyOf(rule) in links <==> exists j :: 0 <= j < |page.anchors| && Usable(rule, page.anchors[j])
    ensures var links := SelectLinks(page, base, urljoin).links;
            KeyOf(rule) in links ==>
              exists j :: 0 <= j < |page.anchors| && Usable(rule, page.anchors[j])
                && (forall i :: 0 <= i < j ==> !Usable(rule, page.anchors[i]))
                && links[KeyOf(rule)] == urljoin(base, page.anchors[j].href)
  {
    var anchors := page.anchors;
    var tags := WithHref(anchors);
    var links := SelectLinks(page, base, urljoin).links;
    var key := KeyOf(rule);
    LinkOfRule(page, base, urljoin, rule);
    match FirstMatch(tags, rule)
    case None =>
      NoTagNoAnchor(anchors, rule);
    case Some(k) =>
      var j := FirstTagIsEarliestAnchor(anchors, rule);
      assert links[key] == urljoin(base, tags[k].href);
  }

  /** Outside the class-marked case, the entry a search fills survives into the
      returned map unchanged. */
  lemma LinkOfRule(page: ArticlePage, base: string, urljoin: (string, string) -> string, rule: Rule)
    requires page.Page? && SelectLinks(page, base, urljoin).Extracted?
    requires rule != PdfMarker
    requires rule == PdfFallback ==> forall i :: 0 <= i < |page.anchors| ==> !page.anchors[i].pdfMarked
    ensures var links := SelectLinks(page, base, urljoin).links;
            var found := Found(WithHref(page.anchors), rule, KeyOf(rule), base, urljoin);
            && (KeyOf(rule) in links <==> KeyOf(rule) in found)
            && (KeyOf(rule) in found ==> links[KeyOf(rule)] == found[KeyOf(rule)])
  {
    assert PdfKey != SuppKey && PdfKey != PeerKey && SuppKey != PeerKey by {
      assert PeerKey[0] != SuppKey[0];
    }
    match rule
    case PdfFallback =>
      assert FirstMatch(page.anchors, PdfMarker).None?;
    case SuppRule =>
    case PeerRule =>
  }
}
