/**
 * The link-following half of `EmailScraper.worker`: collecting the links of
 * a page (contact links first), extracting a URL's network location, and
 * choosing which links go back on the queue.
 */
module Links {
  import opened Wrappers
  import opened Text
  import Extract

  // ---------------------------------------------------------------- sequences

  function Reverse<T>(s: seq<T>): (r: seq<T>)
    ensures |r| == |s|
    decreases |s|
  {
    if s == [] then [] else [s[|s| - 1]] + Reverse(s[..|s| - 1])
  }

  lemma ReverseSnoc<T>(s: seq<T>, x: T)
    ensures Reverse(s + [x]) == [x] + Reverse(s)
  {
    assert (s + [x])[..|s|] == s;
  }

  // ---------------------------------------------------------------- collection

  /** Hrefs that are not followed: scripts, mail and phone links, and fragments. */
  const SkippedPrefixes: seq<string> := ["javascript:", "mailto:", "tel:", "#"]

  /** Link texts that mark a contact page. */
  const ContactTerms: seq<string> := ["contact", "contacto", "about", "nosotros", "equipo", "team"]

  predicate HasSkippedPrefix(href: string) {
    StartsWithAny(href, SkippedPrefixes)
  }

  /** The stripped href of an `a` or `link` tag, unless it is empty or skipped. */
  function LinkHref(tag: Extract.Tag): (r: Option<string>)
    ensures r.Some? ==> r.value != "" && !HasSkippedPrefix(r.value)
    ensures r.Some? ==> (tag.name == "a" || tag.name == "link") && "href" in tag.attrs && r.value == Strip(tag.attrs["href"])
    ensures (tag.name == "a" || tag.name == "link") && "href" in tag.attrs
            && Strip(tag.attrs["href"]) != "" && !HasSkippedPrefix(Strip(tag.attrs["href"]))
            ==> r == Some(Strip(tag.attrs["href"]))
  {
    if (tag.name == "a" || tag.name == "link") && "href" in tag.attrs then
      var href := Strip(tag.attrs["href"]);
      if href == "" || HasSkippedPrefix(href) then None else Some(href)
    else None
  }

  /** The full URL of a link: scheme-relative takes the page's scheme, root-relative is joined, the rest is kept. */
  function ResolveLink(href: string, pageUrl: string, join: (string, string) -> string): (r: string)
    ensures !StartsWith(href, "/") ==> r == href
  {
    if StartsWith(href, "//") then (if StartsWith(pageUrl, "https:") then "https:" else "http:") + href
    else if StartsWith(href, "/") then join(pageUrl, href)
    else href
  }

  /** A scheme-relative link is made `https:` exactly when the page itself is `https:`. */
  lemma SchemeRelativeLink(href: string, pageUrl: string, join: (string, string) -> string)
    requires StartsWith(href, "//")
    ensures StartsWith(pageUrl, "https:") ==> ResolveLink(href, pageUrl, join) == "https:" + href
    ensures !StartsWith(pageUrl, "https:") ==> ResolveLink(href, pageUrl, join) == "http:" + href
    ensures StartsWith(ResolveLink(href, pageUrl, join), "https:") <==> StartsWith(pageUrl, "https:")
  {
    var r := ResolveLink(href, pageUrl, join);
    if !StartsWith(pageUrl, "https:") {
      assert r[4] == ':' && "https:"[4] == 's';
    }
  }

  predicate IsContactLink(tag: Extract.Tag) {
    ContainsAny(Lower(tag.text), ContactTerms)
  }

  /** The link a tag contributes, resolved against the page, if any. */
  function TagLink(tag: Extract.Tag, pageUrl: string, join: (string, string) -> string): (r: Option<string>)
    ensures r.Some? <==> LinkHref(tag).Some?
  {
    match LinkHref(tag)
    case Some(href) => Some(ResolveLink(href, pageUrl, join))
    case None => None
  }

  /** The links of the tags whose contact test comes out as `contact`, in document order. */
  function Picked(tags: seq<Extract.Tag>, link: Extract.Tag -> Option<string>,
                  isContact: Extract.Tag -> bool, contact: bool): seq<string>
    decreases |tags|
  {
    if tags == [] then []
    else
      var prev := Picked(tags[..|tags| - 1], link, isContact, contact);
      var tag := tags[|tags| - 1];
      if link(tag).Some? && isContact(tag) == contact then prev + [link(tag).value] else prev
  }

  /** The number of tags that yield a link. */
  function Linked(tags: seq<Extract.Tag>, link: Extract.Tag -> Option<string>): nat
    decreases |tags|
  {
    if tags == [] then 0
    else Linked(tags[..|tags| - 1], link) + (if link(tags[|tags| - 1]).Some? then 1 else 0)
  }

  /** The resolved URLs of the contact links, in document order. */
  function ContactUrls(tags: seq<Extract.Tag>, pageUrl: string, join: (string, string) -> string): seq<string> {
    Picked(tags, t => TagLink(t, pageUrl, join), IsContactLink, true)
  }

  /** The resolved URLs of the other links, in document order. */
  function OtherUrls(tags: seq<Extract.Tag>, pageUrl: string, join: (string, string) -> string): seq<string> {
    Picked(tags, t => TagLink(t, pageUrl, join), IsContactLink, false)
  }

  /** Every link is either a contact link or another link, never both and never dropped. */
  lemma {:induction false} PickedPartition(tags: seq<Extract.Tag>, link: Extract.Tag -> Option<string>,
                                           isContact: Extract.Tag -> bool)
    ensures |Picked(tags, link, isContact, true)| + |Picked(tags, link, isContact, false)| == Linked(tags, link)
    decreases |tags|
  {
    if tags != [] {
      PickedPartition(tags[..|tags| - 1], link, isContact);
    }
  }

  /** A tag without a followable href contributes to neither list. */
  lemma SkippedTagIgnored(tags: seq<Extract.Tag>, tag: Extract.Tag, pageUrl: string, join: (string, string) -> string)
    requires LinkHref(tag).None?
    ensures ContactUrls(tags + [tag], pageUrl, join) == ContactUrls(tags, pageUrl, join)
    ensures OtherUrls(tags + [tag], pageUrl, join) == OtherUrls(tags, pageUrl, join)
  {
    assert (tags + [tag])[..|tags|] == tags;
  }

  /**
   * `find_all(['a', 'link'], href=True)` and the collection loop: contact
   * links are inserted at the front and the others appended, so the list is
   * the contact links in reverse document order followed by the other links
   * in document order.
   */
  method CollectLinks(tags: seq<Extract.Tag>, pageUrl: string, join: (string, string) -> string)
    returns (links: seq<string>)
    ensures links == Reverse(ContactUrls(tags, pageUrl, join)) + OtherUrls(tags, pageUrl, join)
    ensures |links| == Linked(tags, t => TagLink(t, pageUrl, join))
  {
    links := FrontAndBack(tags, t => TagLink(t, pageUrl, join), IsContactLink);
  }

  /** The loop itself: a contact tag's link goes to the front, any other tag's link to the back. */
  method FrontAndBack(tags: seq<Extract.Tag>, link: Extract.Tag -> Option<string>, isContact: Extract.Tag -> bool)
    returns (links: seq<string>)
    ensures links == Reverse(Picked(tags, link, isContact, true)) + Picked(tags, link, isContact, false)
    ensures |links| == Linked(tags, link)
  {
    links := [];
    ghost var front: seq<string> := [];
    ghost var back: seq<string> := [];
    for i := 0 to |tags|
      invariant front == Prepended(tags[..i], link, isContact)
      invariant back == Picked(tags[..i], link, isContact, false)
      invariant links == front + back
    {
      var tag := tags[i];
      assert tags[..i + 1][..i] == tags[..i];
      match link(tag)
      case None =>
      case Some(fullUrl) =>
        if isContact(tag) {
          ConsAssoc(fullUrl, front, back);
          front := [fullUrl] + front;
          links := [fullUrl] + links;
        } else {
          SnocAssoc(front, back, fullUrl);
          back := back + [fullUrl];
          links := links + [fullUrl];
        }
    }
    assert tags[..|tags|] == tags;
    PrependedIsReverse(tags, link, isContact);
    PickedPartition(tags, link, isContact);
  }

  /** The contact links as the loop builds them, each inserted at the front. */
  function Prepended(tags: seq<Extract.Tag>, link: Extract.Tag -> Option<string>, isContact: Extract.Tag -> bool): seq<string>
    decreases |tags|
  {
    if tags == [] then []
    else
      var prev := Prepended(tags[..|tags| - 1], link, isContact);
      var tag := tags[|tags| - 1];
      if link(tag).Some? && isContact(tag) then [link(tag).value] + prev else prev
  }

  /** Inserting each contact link at the front reverses their document order. */
  lemma {:induction false} PrependedIsReverse(tags: seq<Extract.Tag>, link: Extract.Tag -> Option<string>,
                                              isContact: Extract.Tag -> bool)
    ensures Prepended(tags, link, isContact) == Reverse(Picked(tags, link, isContact, true))
    decreases |tags|
  {
    if tags != [] {
      var tag := tags[|tags| - 1];
      PrependedIsReverse(tags[..|tags| - 1], link, isContact);
      if link(tag).Some? && isContact(tag) {
        ReverseSnoc(Picked(tags[..|tags| - 1], link, isContact, true), link(tag).value);
      }
    }
  }

  lemma ConsAssoc<T>(x: T, a: seq<T>, b: seq<T>)
    ensures [x] + (a + b) == ([x] + a) + b
  {
  }

  lemma SnocAssoc<T>(a: seq<T>, b: seq<T>, x: T)
    ensures (a + b) + [x] == a + (b + [x])
  {
  }

  // ---------------------------------------------------------------- netloc

  predicate IsSchemeChar(c: char) {
    'a' <= c <= 'z' || 'A' <= c <= 'Z' || '0' <= c <= '9' || c == '+' || c == '-' || c == '.'
  }

  /** `url[:i]` is a scheme: it starts with a letter and has only scheme characters. */
  predicate IsScheme(s: string) {
    |s| > 0 && ('a' <= s[0] <= 'z' || 'A' <= s[0] <= 'Z') && forall k :: 0 <= k < |s| ==> IsSchemeChar(s[k])
  }

  /** The URL with its scheme and colon removed, when it has a scheme. */
  function AfterScheme(url: string): string {
    match IndexOf(url, ':')
    case Some(i) => if IsScheme(url[..i]) then url[i + 1..] else url
    case None => url
  }

  /** The first index at or after `from` holding `/`, `?` or `#`, or the length. */
  function AuthorityEnd(s: string, from: nat): (j: nat)
    requires from <= |s|
    ensures from <= j <= |s|
    ensures forall k :: from <= k < j ==> s[k] != '/' && s[k] != '?' && s[k] != '#'
    ensures j < |s| ==> s[j] == '/' || s[j] == '?' || s[j] == '#'
    decreases |s| - from
  {
    if from == |s| || s[from] == '/' || s[from] == '?' || s[from] == '#' then from
    else AuthorityEnd(s, from + 1)
  }

  predicate NoAuthorityDelimiter(s: string) {
    forall k :: 0 <= k < |s| ==> s[k] != '/' && s[k] != '?' && s[k] != '#'
  }

  /**
   * `urlparse(url).netloc`: the authority after `//` up to the next `/`, `?`
   * or `#` (section 3.2 of RFC 3986), empty when there is no `//`.
   */
  function Netloc(url: string): (r: string)
    ensures NoAuthorityDelimiter(r)
  {
    var rest := AfterScheme(url);
    if StartsWith(rest, "//") then rest[2..AuthorityEnd(rest, 2)] else ""
  }

  /** The netloc of `scheme://host/path` is `host`. */
  lemma NetlocOf(scheme: string, host: string, path: string)
    requires IsScheme(scheme) && NoAuthorityDelimiter(host)
    requires path == "" || path[0] == '/' || path[0] == '?' || path[0] == '#'
    ensures Netloc(scheme + "://" + host + path) == host
  {
    var rest := "//" + host + path;
    assert scheme + "://" + host + path == scheme + [':'] + rest;
    AfterSchemeOf(scheme, rest);
    AuthorityOf(host, path);
  }

  /** A scheme and its colon are removed. */
  lemma AfterSchemeOf(scheme: string, rest: string)
    requires IsScheme(scheme)
    ensures AfterScheme(scheme + [':'] + rest) == rest
  {
    var url := scheme + [':'] + rest;
    assert ':' !in scheme by {
      forall k | 0 <= k < |scheme| ensures scheme[k] != ':' {
        assert IsSchemeChar(scheme[k]);
      }
    }
    IndexOfAfter(scheme, ':', rest);
    assert url[..|scheme|] == scheme;
    assert url[|scheme| + 1..] == rest;
  }

  /** The authority after `//` runs up to the first delimiter. */
  lemma AuthorityOf(host: string, path: string)
    requires NoAuthorityDelimiter(host)
    requires path == "" || path[0] == '/' || path[0] == '?' || path[0] == '#'
    ensures var rest := "//" + host + path;
      StartsWith(rest, "//") && rest[2..AuthorityEnd(rest, 2)] == host
  {
    var rest := "//" + host + path;
    assert rest[..2] == "//";
    var j := AuthorityEnd(rest, 2);
    assert forall k :: 2 <= k < 2 + |host| ==> rest[k] == host[k - 2];
    assert 2 + |host| < |rest| ==> rest[2 + |host|] == path[0];
    assert j <= 2 + |host|;
    assert rest[2..j] == host;
  }

  // ---------------------------------------------------------------- admission

  /** File extensions that are never followed. */
  const SkippedExtensions: seq<string> :=
    [".jpg", ".jpeg", ".png", ".gif", ".pdf", ".zip", ".mp4", ".mp3", ".css", ".js", ".svg", ".ico", ".woff", ".ttf", ".eot"]

  predicate Excluded(url: string, excludeDomains: set<string>) {
    exists x :: x in excludeDomains && Contains(Lower(url), x)
  }

  /** A link is queued when it is on the start page's host, new, not excluded and not a file. */
  predicate Admissible(url: string, baseDomain: string, visited: set<string>, excludeDomains: set<string>) {
    && Netloc(url) == baseDomain
    && url !in visited
    && !Excluded(url, excludeDomains)
    && !ContainsAny(Lower(url), SkippedExtensions)
  }

  /** The links `admit` accepts, in order. */
  function Filter(links: seq<string>, admit: string -> bool): (r: seq<string>)
    ensures |r| <= |links|
    ensures forall k :: 0 <= k < |r| ==> r[k] in links && admit(r[k])
    decreases |links|
  {
    if links == [] then []
    else
      var prev := Filter(links[..|links| - 1], admit);
      var u := links[|links| - 1];
      assert forall k :: 0 <= k < |prev| ==> prev[k] in links[..|links| - 1];
      if admit(u) then prev + [u] else prev
  }

  /** The positions in `links` of the links `admit` accepts, in order. */
  function FilterIndices(links: seq<string>, admit: string -> bool): seq<nat>
    decreases |links|
  {
    if links == [] then []
    else
      var prev := FilterIndices(links[..|links| - 1], admit);
      if admit(links[|links| - 1]) then prev + [|links| - 1] else prev
  }

  /** `r` is the subsequence of `links` at the strictly increasing positions `idx`. */
  ghost predicate PicksAt(r: seq<string>, links: seq<string>, idx: seq<nat>) {
    && |idx| == |r|
    && (forall k :: 0 <= k < |idx| ==> idx[k] < |links| && r[k] == links[idx[k]])
    && (forall j, k :: 0 <= j < k < |idx| ==> idx[j] < idx[k])
  }

  /** Filter keeps exactly the admitted links, each once per occurrence and in their original order. */
  lemma {:induction false} FilterSubsequence(links: seq<string>, admit: string -> bool)
    ensures PicksAt(Filter(links, admit), links, FilterIndices(links, admit))
    ensures forall i :: 0 <= i < |links| ==> (i in FilterIndices(links, admit) <==> admit(links[i]))
    decreases |links|
  {
    if links != [] {
      var n := |links| - 1;
      var init := links[..n];
      FilterSubsequence(init, admit);
      var prev, idx := FilterIndices(init, admit), FilterIndices(links, admit);
      if admit(links[n]) {
        PicksAtSnoc(Filter(init, admit), links, prev);
      } else {
        PicksAtPrefix(Filter(init, admit), links, prev);
      }
      forall i | 0 <= i < |links|
        ensures i in idx <==> admit(links[i])
      {
        if i < n {
          assert links[i] == init[i];
          assert n !in prev;
        }
      }
    }
  }

  lemma PicksAtPrefix(r: seq<string>, links: seq<string>, idx: seq<nat>)
    requires links != [] && PicksAt(r, links[..|links| - 1], idx)
    ensures PicksAt(r, links, idx)
  {
  }

  lemma PicksAtSnoc(r: seq<string>, links: seq<string>, idx: seq<nat>)
    requires links != [] && PicksAt(r, links[..|links| - 1], idx)
    ensures PicksAt(r + [links[|links| - 1]], links, idx + [|links| - 1])
  {
    var r', idx' := r + [links[|links| - 1]], idx + [|links| - 1];
    forall k | 0 <= k < |idx'| ensures idx'[k] < |links| && r'[k] == links[idx'[k]] {
      if k < |idx| {
        assert idx'[k] == idx[k] && r'[k] == r[k];
      }
    }
  }

  /** Every admitted link is kept. */
  lemma FilterComplete(links: seq<string>, admit: string -> bool, u: string)
    requires u in links && admit(u)
    ensures u in Filter(links, admit)
  {
    var i :| 0 <= i < |links| && links[i] == u;
    FilterSubsequence(links, admit);
    var idx := FilterIndices(links, admit);
    var k :| 0 <= k < |idx| && idx[k] == i;
    assert Filter(links, admit)[k] == u;
  }

  /** Filtering distributes over concatenation. */
  lemma {:induction false} FilterAppend(a: seq<string>, b: seq<string>, admit: string -> bool)
    ensures Filter(a + b, admit) == Filter(a, admit) + Filter(b, admit)
    decreases |b|
  {
    if b == [] {
      assert a + b == a;
    } else {
      FilterAppend(a, b[..|b| - 1], admit);
      assert (a + b)[..|a + b| - 1] == a + b[..|b| - 1];
    }
  }

  /** A link on the queue with the depth it will be crawled at. */
  datatype QueueItem = QueueItem(url: string, depth: int)

  /** At most this many links of a page are queued. */
  const MaxLinksPerPage := 50

  function Take<T>(s: seq<T>, n: nat): (r: seq<T>)
    ensures |r| == if |s| < n then |s| else n
    ensures r == s[..|r|]
  {
    if |s| <= n then s else s[..n]
  }

  function AtDepth(urls: seq<string>, depth: int): (r: seq<QueueItem>)
    ensures |r| == |urls|
    ensures forall k :: 0 <= k < |r| ==> r[k] == QueueItem(urls[k], depth)
  {
    seq(|urls|, k requires 0 <= k < |urls| => QueueItem(urls[k], depth))
  }

  /** What one page puts on the queue: nothing once a limit is reached, else the first 50 admissible links. */
  ghost function PushedLinks(links: seq<string>, depth: int, pagesVisited: nat, emailsFound: nat,
                             maxPages: int, maxEmails: int, baseDomain: string,
                             visited: set<string>, excludeDomains: set<string>): seq<QueueItem>
  {
    if pagesVisited >= maxPages || emailsFound >= maxEmails then []
    else
      var admitted := Filter(links, u => Admissible(u, baseDomain, visited, excludeDomains));
      AtDepth(Take(admitted, MaxLinksPerPage), depth + 1)
  }

  /**
   * The admission loop of one page: stop at the page or email limit, skip
   * links that are not admissible, count the rest and stop after the fiftieth.
   */
  method SelectLinks(links: seq<string>, depth: int, pagesVisited: nat, emailsFound: nat,
                     maxPages: int, maxEmails: int, baseDomain: string,
                     visited: set<string>, excludeDomains: set<string>)
    returns (pushed: seq<QueueItem>)
    ensures pushed == PushedLinks(links, depth, pagesVisited, emailsFound, maxPages, maxEmails,
                                  baseDomain, visited, excludeDomains)
    ensures |pushed| <= MaxLinksPerPage
    ensures forall k :: 0 <= k < |pushed| ==>
      pushed[k].depth == depth + 1 && Netloc(pushed[k].url) == baseDomain && pushed[k].url !in visited
  {
    var admit := u => Admissible(u, baseDomain, visited, excludeDomains);
    pushed := QueueAdmitted(links, depth, admit, () => pagesVisited >= maxPages || emailsFound >= maxEmails);
    PushedLinksSound(links, depth, pagesVisited, emailsFound, maxPages, maxEmails, baseDomain, visited, excludeDomains);
  }

  /** Every queued link comes from the page, is admissible, and sits one level deeper; at most 50 are queued. */
  lemma PushedLinksSound(links: seq<string>, depth: int, pagesVisited: nat, emailsFound: nat,
                         maxPages: int, maxEmails: int, baseDomain: string,
                         visited: set<string>, excludeDomains: set<string>)
    ensures var pushed := PushedLinks(links, depth, pagesVisited, emailsFound, maxPages, maxEmails,
                                      baseDomain, visited, excludeDomains);
      && |pushed| <= MaxLinksPerPage
      && forall k :: 0 <= k < |pushed| ==>
           && pushed[k].depth == depth + 1 && pushed[k].url in links
           && Admissible(pushed[k].url, baseDomain, visited, excludeDomains)
  {
    if !(pagesVisited >= maxPages || emailsFound >= maxEmails) {
      var admitted := Filter(links, u => Admissible(u, baseDomain, visited, excludeDomains));
      var taken := Take(admitted, MaxLinksPerPage);
      assert forall k :: 0 <= k < |taken| ==> taken[k] == admitted[k];
    }
  }

  /**
   * The loop itself: before each link test whether to stop, then queue the
   * link at the next depth when `admit` accepts it, up to the cap.
   */
  method QueueAdmitted(links: seq<string>, depth: int, admit: string -> bool, limitReached: () -> bool)
    returns (pushed: seq<QueueItem>)
    ensures pushed == if limitReached() then [] else AtDepth(Take(Filter(links, admit), MaxLinksPerPage), depth + 1)
  {
    pushed := [];
    var linksFound := 0;
    var i := 0;
    ghost var admitted: seq<string> := [];
    while i < |links|
      invariant 0 <= i <= |links|
      invariant admitted == Filter(links[..i], admit)
      invariant linksFound == |admitted| <= MaxLinksPerPage
      invariant pushed == AtDepth(admitted, depth + 1)
      invariant i > 0 ==> !limitReached()
    {
      if limitReached() {
        break;
      }
      var url := links[i];
      FilterSnoc(links, i, admit);
      if admit(url) {
        linksFound := linksFound + 1;
        if linksFound > MaxLinksPerPage {
          CapReached(links, i, admit);
          break;
        }
        AtDepthSnoc(admitted, url, depth + 1);
        admitted := admitted + [url];
        pushed := pushed + [QueueItem(url, depth + 1)];
      }
      i := i + 1;
    }
    if i == |links| {
      assert links[..i] == links;
    }
  }

  /** One more link extends the filtered prefix by at most that link. */
  lemma FilterSnoc(links: seq<string>, i: nat, admit: string -> bool)
    requires i < |links|
    ensures Filter(links[..i + 1], admit) == Filter(links[..i], admit) + (if admit(links[i]) then [links[i]] else [])
  {
    assert links[..i + 1][..i] == links[..i];
  }

  /** When the prefix through `i` holds one admitted link more than the cap, the cap ends before `i`. */
  lemma CapReached(links: seq<string>, i: nat, admit: string -> bool)
    requires i < |links| && admit(links[i])
    requires |Filter(links[..i], admit)| == MaxLinksPerPage
    ensures Take(Filter(links, admit), MaxLinksPerPage) == Filter(links[..i], admit)
  {
    FilterSnoc(links, i, admit);
    FilterAppend(links[..i + 1], links[i + 1..], admit);
    assert links[..i + 1] + links[i + 1..] == links;
  }

  lemma AtDepthSnoc(urls: seq<string>, url: string, depth: int)
    ensures AtDepth(urls + [url], depth) == AtDepth(urls, depth) + [QueueItem(url, depth)]
  {
  }
}
