/**
 * Harvesting candidate addresses from one page (`extract_emails_from_page`),
 * the pure parts of image OCR (`extract_text_from_image`) and of page
 * fetching (`get_page_content`).
 *
 * The parsed HTML tree is input data (a Page); the regular-expression scan
 * `re.findall(email_pattern, ...)`, `urljoin`, the image download and the
 * OCR engine are functions handed in through an Env.
 */
module Extract {
  import opened Wrappers
  import opened Text
  import EmailFilter

  newtype byte = x: int | 0 <= x < 256

  /** One element of the parsed tree: its name, its attributes and its `get_text()`. */
  datatype Tag = Tag(name: string, attrs: map<string, string>, text: string)

  /** A parsed page: `soup.get_text()` and `soup.find_all(True)` in document order. */
  datatype Page = Page(text: string, tags: seq<Tag>)

  /** The answer to an image download: status code and body bytes. */
  datatype Download = Download(status: int, data: seq<byte>)

  /** The collaborators the extractor calls. */
  datatype Env = Env(
    findAll: string -> seq<string>,           // re.findall(email_pattern, text, re.IGNORECASE)
    join: (string, string) -> string,         // urllib.parse.urljoin
    fetchImage: string -> Option<Download>,   // session.get(url); None when it raises
    ocr: seq<byte> -> Option<string>)         // PIL + Tesseract; None when either fails

  function ToSet(s: seq<string>): (r: set<string>)
    ensures forall x :: x in r <==> x in s
  {
    set x | x in s
  }

  // ---------------------------------------------------------------- OCR

  /** The JPEG (`FF D8`) or PNG (`89 'P' 'N' 'G'`) signature at the start of the bytes. */
  predicate IsRasterImage(data: seq<byte>) {
    StartsWith(data, [0xFF, 0xD8]) || StartsWith(data, [0x89, 0x50, 0x4E, 0x47])
  }

  /** The sniff accepts exactly the byte strings that open with one of the two signatures. */
  lemma RasterImageIff(data: seq<byte>)
    ensures IsRasterImage(data) <==>
      (|data| >= 2 && data[0] == 0xFF && data[1] == 0xD8) ||
      (|data| >= 4 && data[0] == 0x89 && data[1] == 0x50 && data[2] == 0x4E && data[3] == 0x47)
  {
    if |data| >= 2 && data[0] == 0xFF && data[1] == 0xD8 {
      assert data[..2] == [0xFF, 0xD8];
    }
    if |data| >= 4 && data[0] == 0x89 && data[1] == 0x50 && data[2] == 0x4E && data[3] == 0x47 {
      assert data[..4] == [0x89, 0x50, 0x4E, 0x47];
    }
  }

  /** `[line.strip() for line in lines if '@' in line]` */
  function EmailLines(lines: seq<string>): (r: seq<string>)
    ensures |r| <= |lines|
    ensures forall k :: 0 <= k < |r| ==> '@' in r[k]
  {
    if lines == [] then []
    else
      var rest := EmailLines(lines[1..]);
      if '@' in lines[0] then
        var head := Strip(lines[0]);
        StripKeeps(lines[0], '@');
        assert '@' in head;
        assert forall k :: 1 <= k < |[head] + rest| ==> ([head] + rest)[k] == rest[k - 1];
        [head] + rest
      else rest
  }

  /** Stripping never introduces a character. */
  lemma StripOmits(s: string, c: char)
    requires c !in s
    ensures c !in Strip(s)
  {
    var i := StripStart(s);
    assert Strip(s) == s[i..i + |Strip(s)|];
  }

  /** The kept lines are empty exactly when no line holds an `@`, and they hold no newline when the lines do not. */
  lemma {:induction false} EmailLinesSpec(lines: seq<string>)
    ensures EmailLines(lines) == [] <==> forall k :: 0 <= k < |lines| ==> '@' !in lines[k]
    ensures (forall k :: 0 <= k < |lines| ==> '\n' !in lines[k]) ==>
      forall k :: 0 <= k < |EmailLines(lines)| ==> '\n' !in EmailLines(lines)[k]
    decreases |lines|
  {
    if lines != [] {
      EmailLinesSpec(lines[1..]);
      assert forall k :: 1 <= k < |lines| ==> lines[k] == lines[1..][k - 1];
      if forall k :: 0 <= k < |lines| ==> '\n' !in lines[k] {
        StripOmits(lines[0], '\n');
      }
    }
  }

  /** The OCR text reduced to its lines holding an `@`, joined by newlines; None if there are none. */
  function OcrEmailLines(text: string): Option<string> {
    var kept := EmailLines(Split(text, '\n'));
    if kept == [] then None else Some(Join(kept, '\n'))
  }

  /** A character other than the separator occurs in a join exactly when it occurs in a part. */
  lemma {:induction false} InJoin(parts: seq<string>, sep: char, c: char)
    requires c != sep
    ensures c in Join(parts, sep) <==> exists k :: 0 <= k < |parts| && c in parts[k]
    decreases |parts|
  {
    if |parts| > 1 {
      InJoin(parts[1..], sep, c);
      assert Join(parts, sep) == parts[0] + [sep] + Join(parts[1..], sep);
      if k :| 1 <= k < |parts| && c in parts[k] {
        assert parts[1..][k - 1] == parts[k];
      }
      if k :| 0 <= k < |parts[1..]| && c in parts[1..][k] {
        assert c in parts[k + 1];
      }
    }
  }

  /**
   * OCR post-processing: no result exactly when the text holds no `@`;
   * otherwise the result splits back into the stripped lines that hold one.
   */
  lemma OcrEmailLinesSpec(text: string)
    ensures OcrEmailLines(text).None? <==> '@' !in text
    ensures OcrEmailLines(text).Some? ==>
      var lines := Split(OcrEmailLines(text).value, '\n');
      lines == EmailLines(Split(text, '\n')) && forall k :: 0 <= k < |lines| ==> '@' in lines[k]
  {
    var parts := Split(text, '\n');
    JoinSplit(text, '\n');
    InJoin(parts, '\n', '@');
    EmailLinesSpec(parts);
    var kept := EmailLines(parts);
    if kept != [] {
      SplitJoin(kept, '\n');
    }
  }

  /**
   * `extract_text_from_image` after Tesseract is set up: the download must
   * answer 200 with JPEG or PNG bytes that OCR can read.
   */
  function ImageText(url: string, env: Env): (r: Option<string>)
    ensures r.Some? ==> env.fetchImage(url).Some? && env.fetchImage(url).value.status == 200
    ensures r.Some? ==> IsRasterImage(env.fetchImage(url).value.data)
  {
    match env.fetchImage(url)
    case None => None
    case Some(d) =>
      if d.status != 200 then None
      else if !IsRasterImage(d.data) then None
      else
        match env.ocr(d.data)
        case None => None
        case Some(text) => OcrEmailLines(text)
  }

  // ---------------------------------------------------------------- page fetch

  /** What the HTTP session answered, or None when the request raised (network error, timeout). */
  datatype Response = Response(status: int, contentType: Option<string>, body: Option<string>)

  /** The body `get_page_content` returns: status 200 and an HTML content type, else None. */
  function PageContent(outcome: Option<Response>): (r: Option<string>)
    ensures r.Some? <==>
      && outcome.Some? && outcome.value.status == 200
      && Contains(Lower(outcome.value.contentType.GetOr("")), "text/html")
      && outcome.value.body.Some?
    ensures r.Some? ==> r == outcome.value.body
  {
    match outcome
    case None => None
    case Some(resp) =>
      if resp.status != 200 then None
      else if !Contains(Lower(resp.contentType.GetOr("")), "text/html") then None
      else resp.body
  }

  // ---------------------------------------------------------------- attributes

  const AddressAttributes: seq<string> := ["href", "data-email", "data-contact", "data-mail", "data-email-address"]

  /** `attr_value[7:].split('?')[0].strip()` for an href starting with `mailto:`. */
  function MailtoAddress(href: string): (r: string)
    requires StartsWith(href, "mailto:")
    ensures '?' !in r
  {
    var i := StripStart(Split(href[7..], '?')[0]);
    assert Strip(Split(href[7..], '?')[0]) == Split(href[7..], '?')[0][i..i + |Strip(Split(href[7..], '?')[0])|];
    Strip(Split(href[7..], '?')[0])
  }

  /** The mailto value is the text between `mailto:` and the first `?`, stripped. */
  lemma MailtoAddressOf(address: string, query: string)
    requires '?' !in address && (query == "" || query[0] == '?')
    ensures MailtoAddress("mailto:" + address + query) == Strip(address)
  {
    var href := "mailto:" + address + query;
    assert href[..7] == "mailto:";
    assert href[7..] == address + query;
    if query != "" {
      IndexOfIs(address + query, '?', |address|);
      assert (address + query)[..|address|] == address;
    } else {
      assert address + query == address;
    }
  }

  /** The addresses one attribute value yields: the mailto target, or the pattern scan. */
  function ValueCandidates(attr: string, value: string, env: Env): set<string> {
    if attr == "href" && StartsWith(value, "mailto:") then {MailtoAddress(value)}
    else ToSet(env.findAll(value))
  }

  /** The addresses the listed attributes of one tag yield (the attributes in order, from the last). */
  function TagCandidates(tag: Tag, attrs: seq<string>, env: Env): set<string>
    decreases |attrs|
  {
    if attrs == [] then {}
    else
      var a := attrs[|attrs| - 1];
      TagCandidates(tag, attrs[..|attrs| - 1], env) +
      (if a in tag.attrs && '@' in tag.attrs[a] then ValueCandidates(a, tag.attrs[a], env) else {})
  }

  /** The attribute scan over the tags in document order. */
  function AttributeCandidates(tags: seq<Tag>, env: Env): set<string>
    decreases |tags|
  {
    if tags == [] then {}
    else AttributeCandidates(tags[..|tags| - 1], env) + TagCandidates(tags[|tags| - 1], AddressAttributes, env)
  }

  /** Whatever one attribute of one tag in the list yields is among the attribute candidates. */
  lemma {:induction false} TagCandidatesHas(tag: Tag, attrs: seq<string>, j: nat, env: Env)
    requires j < |attrs| && attrs[j] in tag.attrs && '@' in tag.attrs[attrs[j]]
    ensures ValueCandidates(attrs[j], tag.attrs[attrs[j]], env) <= TagCandidates(tag, attrs, env)
    decreases |attrs|
  {
    if j < |attrs| - 1 {
      TagCandidatesHas(tag, attrs[..|attrs| - 1], j, env);
    }
  }

  /** Whatever one tag of the page yields is among the attribute candidates. */
  lemma {:induction false} AttributeCandidatesHas(tags: seq<Tag>, k: nat, env: Env)
    requires k < |tags|
    ensures TagCandidates(tags[k], AddressAttributes, env) <= AttributeCandidates(tags, env)
    decreases |tags|
  {
    if k < |tags| - 1 {
      AttributeCandidatesHas(tags[..|tags| - 1], k, env);
    }
  }

  /** A `mailto:` link holding an `@` contributes its address to the candidates. */
  lemma MailtoContributes(tags: seq<Tag>, k: nat, env: Env)
    requires k < |tags| && "href" in tags[k].attrs
    requires StartsWith(tags[k].attrs["href"], "mailto:") && '@' in tags[k].attrs["href"]
    ensures MailtoAddress(tags[k].attrs["href"]) in AttributeCandidates(tags, env)
  {
    TagCandidatesHas(tags[k], AddressAttributes, 0, env);
    AttributeCandidatesHas(tags, k, env);
  }

  // ---------------------------------------------------------------- images

  /** The absolute URL of an image source: scheme-relative gets `https:`, root-relative is joined, the rest is kept. */
  function ResolveImageUrl(src: string, baseUrl: string, env: Env): (r: string)
    ensures StartsWith(src, "//") ==> r == "https:" + src
    ensures !StartsWith(src, "/") ==> r == src
  {
    if StartsWith(src, "//") then "https:" + src
    else if StartsWith(src, "/") then env.join(baseUrl, src)
    else src
  }

  const ContactImageTerms: seq<string> := ["email", "mail", "contact", "correo"]

  /** The file name suggests the image shows an address. */
  predicate IsContactImage(src: string) {
    ContainsAny(Lower(src), ContactImageTerms)
  }

  /** The term `email` is redundant: any source containing it contains `mail`. */
  lemma ContactImageIff(src: string)
    ensures IsContactImage(src) <==>
      Contains(Lower(src), "mail") || Contains(Lower(src), "contact") || Contains(Lower(src), "correo")
  {
    var l := Lower(src);
    ContainsAnyIff(l, ContactImageTerms);
    if Contains(l, "email") {
      assert "email" == "e" + "mail" + "";
      ContainsInner(l, "e", "mail", "");
    }
  }

  /** The addresses OCR finds in one `img` tag whose source looks like a contact image. */
  function ImageCandidates(tag: Tag, baseUrl: string, env: Env): set<string> {
    if tag.name == "img" && "src" in tag.attrs && tag.attrs["src"] != "" && IsContactImage(tag.attrs["src"]) then
      match ImageText(ResolveImageUrl(tag.attrs["src"], baseUrl, env), env)
      case Some(text) => if text != "" then ToSet(env.findAll(text)) else {}
      case None => {}
    else {}
  }

  /** The image scan over the tags in document order. */
  function ImageScan(tags: seq<Tag>, baseUrl: string, env: Env): set<string>
    decreases |tags|
  {
    if tags == [] then {}
    else ImageScan(tags[..|tags| - 1], baseUrl, env) + ImageCandidates(tags[|tags| - 1], baseUrl, env)
  }

  /** The union of the three candidate sets, before filtering. */
  function PageCandidates(page: Page, baseUrl: string, env: Env): set<string> {
    ToSet(env.findAll(page.text)) + AttributeCandidates(page.tags, env) + ImageScan(page.tags, baseUrl, env)
  }

  /** The inner loop of the attribute scan: the listed attributes of one tag. */
  method ScanTag(tag: Tag, env: Env) returns (found: set<string>)
    ensures found == TagCandidates(tag, AddressAttributes, env)
  {
    found := {};
    for j := 0 to |AddressAttributes|
      invariant found == TagCandidates(tag, AddressAttributes[..j], env)
    {
      var attr := AddressAttributes[j];
      if attr in tag.attrs && '@' in tag.attrs[attr] {
        found := found + ValueCandidates(attr, tag.attrs[attr], env);
      }
      assert AddressAttributes[..j + 1][..j] == AddressAttributes[..j];
    }
    assert AddressAttributes[..|AddressAttributes|] == AddressAttributes;
  }

  /** The attribute scan: every tag, in document order. */
  method ScanAttributes(tags: seq<Tag>, env: Env) returns (found: set<string>)
    ensures found == AttributeCandidates(tags, env)
  {
    found := {};
    for i := 0 to |tags|
      invariant found == AttributeCandidates(tags[..i], env)
    {
      var tagEmails := ScanTag(tags[i], env);
      found := found + tagEmails;
      assert tags[..i + 1][..i] == tags[..i];
    }
    assert tags[..|tags|] == tags;
  }

  /** The image scan: every tag, in document order. */
  method ScanImages(tags: seq<Tag>, baseUrl: string, env: Env) returns (found: set<string>)
    ensures found == ImageScan(tags, baseUrl, env)
  {
    found := {};
    for i := 0 to |tags|
      invariant found == ImageScan(tags[..i], baseUrl, env)
    {
      found := found + ImageCandidates(tags[i], baseUrl, env);
      assert tags[..i + 1][..i] == tags[..i];
    }
    assert tags[..|tags|] == tags;
  }

  /** `extract_emails_from_page`: the filtered union of the text, attribute and image scans. */
  method ExtractEmailsFromPage(page: Page, baseUrl: string, env: Env) returns (emails: set<string>)
    ensures emails == EmailFilter.Filtered(PageCandidates(page, baseUrl, env))
    ensures forall e :: e in emails ==> EmailFilter.Accept(e) && EmailFilter.Normalize(e) == e
  {
    // The early-exit test reads this set, which nothing ever adds to.
    var found: set<string> := {};
    var textEmails := ToSet(env.findAll(page.text));
    var attrEmails := ScanAttributes(page.tags, env);
    var imageEmails: set<string> := {};
    if |found| < 5 {
      imageEmails := ScanImages(page.tags, baseUrl, env);
    }
    var candidates := textEmails + attrEmails + imageEmails;
    emails := EmailFilter.FilterCandidates(candidates);
    forall e | e in emails ensures EmailFilter.Accept(e) && EmailFilter.Normalize(e) == e {
      EmailFilter.FilteredSound(candidates, e);
    }
  }
}
