/** The two XML serialisers, create_sitemap_chunk and create_main_index,
    following the Sitemap protocol 0.9 of sitemaps.org (without the entity
    escaping that protocol asks for: the program writes every value as it
    is). */
module Sitemaps {
  import opened Seqs
  import opened Results

  const XML_DECLARATION: string := "<?xml version=\"1.0\" encoding=\"UTF-8\"?>\n"
  const SITEMAP_NAMESPACE: string := "http://www.sitemaps.org/schemas/sitemap/0.9"
  const URLSET_OPEN: string := "<urlset xmlns=\"" + SITEMAP_NAMESPACE + "\">\n"
  const URLSET_CLOSE: string := "</urlset>"
  const INDEX_OPEN: string := "<sitemapindex xmlns=\"" + SITEMAP_NAMESPACE + "\">\n"
  const INDEX_CLOSE: string := "</sitemapindex>"
  const PRIORITY: string := "0.8"

  /** The fixed name of the sitemap index file. */
  const INDEX_FILE_NAME: string := "sitemap.xml"

  /** The absolute URL under which a path of the site is published. */
  function AbsoluteUrl(domain: string, path: string): string
  {
    "https://" + domain + "/" + path
  }

  /** The shape both serialisers share: a fixed head, then a block
      `prefix + item + suffix` per item, then a fixed tail. */
  datatype Layout = Layout(head: string, prefix: string, suffix: string, tail: string)

  /** The `<urlset>` document of one chunk: every `<url>` block has the loc
      https://domain/url, the same lastmod and priority 0.8. */
  function UrlsetLayout(domain: string, today: string): Layout
  {
    Layout(XML_DECLARATION + URLSET_OPEN,
           "  <url>\n    <loc>" + AbsoluteUrl(domain, ""),
           "</loc>\n    <lastmod>" + today + "</lastmod>\n    <priority>" + PRIORITY + "</priority>\n  </url>\n",
           URLSET_CLOSE)
  }

  /** The `<sitemapindex>` document: one `<sitemap>` block per chunk file
      with the loc https://domain/name. */
  function IndexLayout(domain: string): Layout
  {
    Layout(XML_DECLARATION + INDEX_OPEN,
           "  <sitemap>\n    <loc>" + AbsoluteUrl(domain, ""),
           "</loc>\n  </sitemap>\n",
           INDEX_CLOSE)
  }

  function Block(l: Layout, item: string): string
  {
    l.prefix + item + l.suffix
  }

  function Blocks(l: Layout, items: seq<string>): string
  {
    Flatten(seq(|items|, k requires 0 <= k < |items| => Block(l, items[k])))
  }

  function Render(l: Layout, items: seq<string>): string
  {
    l.head + Blocks(l, items) + l.tail
  }

  /** One `<url>` block of a chunk, as the loop of create_sitemap_chunk
      appends it. */
  function UrlBlock(domain: string, today: string, url: string): string
  {
    "  <url>\n    <loc>" + AbsoluteUrl(domain, url) + "</loc>\n    <lastmod>" + today
      + "</lastmod>\n    <priority>" + PRIORITY + "</priority>\n  </url>\n"
  }

  /** One `<sitemap>` block of the index, as the loop of create_main_index
      appends it. */
  function IndexBlock(domain: string, name: string): string
  {
    "  <sitemap>\n    <loc>" + AbsoluteUrl(domain, name) + "</loc>\n  </sitemap>\n"
  }

  function UrlBlocks(domain: string, today: string, urls: seq<string>): string
  {
    Flatten(seq(|urls|, k requires 0 <= k < |urls| => UrlBlock(domain, today, urls[k])))
  }

  function IndexBlocks(domain: string, names: seq<string>): string
  {
    Flatten(seq(|names|, k requires 0 <= k < |names| => IndexBlock(domain, names[k])))
  }

  /** The text create_sitemap_chunk writes for the URLs of one chunk. */
  function ChunkDocument(domain: string, today: string, urls: seq<string>): string
  {
    XML_DECLARATION + URLSET_OPEN + UrlBlocks(domain, today, urls) + URLSET_CLOSE
  }

  /** The text create_main_index writes for the chunk file names. */
  function IndexDocument(domain: string, names: seq<string>): string
  {
    XML_DECLARATION + INDEX_OPEN + IndexBlocks(domain, names) + INDEX_CLOSE
  }

  lemma UrlBlocksSnoc(domain: string, today: string, urls: seq<string>, url: string)
    ensures UrlBlocks(domain, today, urls + [url]) == UrlBlocks(domain, today, urls) + UrlBlock(domain, today, url)
  {
    var longer := urls + [url];
    var parts := seq(|urls|, k requires 0 <= k < |urls| => UrlBlock(domain, today, urls[k]));
    assert seq(|longer|, k requires 0 <= k < |longer| => UrlBlock(domain, today, longer[k]))
           == parts + [UrlBlock(domain, today, url)];
    FlattenSnoc(parts, UrlBlock(domain, today, url));
  }

  lemma IndexBlocksSnoc(domain: string, names: seq<string>, name: string)
    ensures IndexBlocks(domain, names + [name]) == IndexBlocks(domain, names) + IndexBlock(domain, name)
  {
    var longer := names + [name];
    var parts := seq(|names|, k requires 0 <= k < |names| => IndexBlock(domain, names[k]));
    assert seq(|longer|, k requires 0 <= k < |longer| => IndexBlock(domain, longer[k]))
           == parts + [IndexBlock(domain, name)];
    FlattenSnoc(parts, IndexBlock(domain, name));
  }

  /** create_sitemap_chunk, with its text returned instead of written. */
  method CreateSitemapChunk(urls: seq<string>, domain: string, today: string) returns (content: string)
    ensures content == ChunkDocument(domain, today, urls)
  {
    content := XML_DECLARATION;
    content := content + URLSET_OPEN;
    ghost var head := content;
    for i := 0 to |urls|
      invariant content == head + UrlBlocks(domain, today, urls[..i])
    {
      var url := urls[i];
      UrlBlocksSnoc(domain, today, urls[..i], url);
      assert urls[..i + 1] == urls[..i] + [url];
      AppendAssoc(head, UrlBlocks(domain, today, urls[..i]), UrlBlock(domain, today, url));
      content := content + UrlBlock(domain, today, url);
    }
    assert urls[..|urls|] == urls;
    content := content + URLSET_CLOSE;
  }

  /** create_main_index, with its text returned instead of written. With no
      chunk files it is the declaration, the opening and the closing tag. */
  method CreateMainIndex(sitemapFiles: seq<string>, domain: string) returns (content: string)
    ensures content == IndexDocument(domain, sitemapFiles)
    ensures sitemapFiles == [] ==> content == XML_DECLARATION + INDEX_OPEN + INDEX_CLOSE
  {
    content := XML_DECLARATION;
    content := content + INDEX_OPEN;
    ghost var head := content;
    for i := 0 to |sitemapFiles|
      invariant content == head + IndexBlocks(domain, sitemapFiles[..i])
    {
      var sm := sitemapFiles[i];
      IndexBlocksSnoc(domain, sitemapFiles[..i], sm);
      assert sitemapFiles[..i + 1] == sitemapFiles[..i] + [sm];
      AppendAssoc(head, IndexBlocks(domain, sitemapFiles[..i]), IndexBlock(domain, sm));
      content := content + IndexBlock(domain, sm);
    }
    assert sitemapFiles[..|sitemapFiles|] == sitemapFiles;
    content := content + INDEX_CLOSE;
  }

  // Reading the documents back. The parser below is not part of the
  // program: it is the partner against which the serialisers are proved.
  // It recovers the items of a document of a given layout, taking each item
  // to run up to the next '<'.

  /** The longest prefix of `s` without '<'. */
  function TakeUntilTag(s: string): (r: string)
    ensures |r| <= |s| && r == s[..|r|] && '<' !in r
    ensures |r| < |s| ==> s[|r|] == '<'
  {
    if s == [] || s[0] == '<' then [] else [s[0]] + TakeUntilTag(s[1..])
  }

  function ParseBlocks(l: Layout, t: string): Option<seq<string>>
    decreases |t|
  {
    if t == l.tail then Some([])
    else if l.prefix == [] || !StartsWith(t, l.prefix) then None
    else
      var rest := t[|l.prefix|..];
      var item := TakeUntilTag(rest);
      var after := rest[|item|..];
      if !StartsWith(after, l.suffix) then None
      else match ParseBlocks(l, after[|l.suffix|..])
        case None => None
        case Some(items) => Some([item] + items)
  }

  /** The items of a document of layout `l`, or None if it is not one. */
  function Parse(l: Layout, doc: string): Option<seq<string>>
  {
    if StartsWith(doc, l.head) then ParseBlocks(l, doc[|l.head|..]) else None
  }

  /** A layout whose blocks can be told apart from its tail and whose items
      end where the suffix's first '<' begins. */
  predicate Separable(l: Layout)
  {
    l.prefix != [] && l.tail != [] && l.prefix[0] != l.tail[0] && l.suffix != [] && l.suffix[0] == '<'
  }

  /** No item contains '<'; since nothing is escaped, an item with '<' in it
      cannot be told from the markup around it. */
  predicate Untagged(items: seq<string>)
  {
    forall k :: 0 <= k < |items| ==> '<' !in items[k]
  }

  lemma {:induction false} TakeUntilTagOf(u: string, rest: string)
    requires '<' !in u && rest != [] && rest[0] == '<'
    ensures TakeUntilTag(u + rest) == u
  {
    if u == [] {
      assert u + rest == rest;
    } else {
      assert (u + rest)[0] == u[0];
      assert (u + rest)[1..] == u[1..] + rest;
      assert u[0] in u;
      assert forall c :: c in u[1..] ==> c in u;
      TakeUntilTagOf(u[1..], rest);
      assert [u[0]] + u[1..] == u;
    }
  }

  lemma BlocksConsLayout(l: Layout, items: seq<string>)
    requires items != []
    ensures Blocks(l, items) == Block(l, items[0]) + Blocks(l, items[1..])
  {
    var parts := seq(|items|, k requires 0 <= k < |items| => Block(l, items[k]));
    var rest := items[1..];
    assert parts[1..] == seq(|rest|, k requires 0 <= k < |rest| => Block(l, rest[k]));
  }

  /** One block is read back as its item. */
  lemma ParseOneBlock(l: Layout, item: string, more: string)
    requires Separable(l) && '<' !in item
    ensures var t := Block(l, item) + more;
            t != l.tail && StartsWith(t, l.prefix)
            && TakeUntilTag(t[|l.prefix|..]) == item
            && StartsWith(t[|l.prefix|..][|item|..], l.suffix)
            && t[|l.prefix|..][|item|..][|l.suffix|..] == more
  {
    var t := Block(l, item) + more;
    assert t[0] == l.prefix[0];
    assert t[..|l.prefix|] == l.prefix;
    var rest := t[|l.prefix|..];
    assert rest == item + (l.suffix + more);
    TakeUntilTagOf(item, l.suffix + more);
    assert rest[|item|..] == l.suffix + more;
    assert (l.suffix + more)[..|l.suffix|] == l.suffix;
    assert (l.suffix + more)[|l.suffix|..] == more;
  }

  /** A block in front of a text that parses adds its item in front. */
  lemma ParseBlocksCons(l: Layout, item: string, more: string, items: seq<string>)
    requires Separable(l) && '<' !in item && ParseBlocks(l, more) == Some(items)
    ensures ParseBlocks(l, Block(l, item) + more) == Some([item] + items)
  {
    ParseOneBlock(l, item, more);
  }

  lemma {:induction false} ParseBlocksRender(l: Layout, items: seq<string>)
    requires Separable(l) && Untagged(items)
    ensures ParseBlocks(l, Blocks(l, items) + l.tail) == Some(items)
  {
    if items == [] {
      assert Blocks(l, items) == [];
      assert Blocks(l, items) + l.tail == l.tail;
    } else {
      var rest := items[1..];
      forall k | 0 <= k < |rest|
        ensures '<' !in rest[k]
      {
        assert rest[k] == items[k + 1];
      }
      assert '<' !in items[0];
      BlocksConsLayout(l, items);
      var more := Blocks(l, rest) + l.tail;
      AppendAssoc(Block(l, items[0]), Blocks(l, rest), l.tail);
      ParseBlocksRender(l, rest);
      ParseBlocksCons(l, items[0], more, rest);
      assert [items[0]] + rest == items;
    }
  }

  /** What a successful parse of a text other than the tail went through:
      a block with an item free of '<', then a shorter text that parses to
      the remaining items. */
  lemma ParseBlocksStep(l: Layout, t: string, items: seq<string>)
    returns (item: string, tail: string, others: seq<string>)
    requires t != l.tail && ParseBlocks(l, t) == Some(items)
    ensures '<' !in item && |tail| < |t|
    ensures ParseBlocks(l, tail) == Some(others) && items == [item] + others
    ensures t == l.prefix + (item + (l.suffix + tail))
  {
    var rest := t[|l.prefix|..];
    item := TakeUntilTag(rest);
    var after := rest[|item|..];
    tail := after[|l.suffix|..];
    others := ParseBlocks(l, tail).value;
    assert after == l.suffix + tail;
    assert rest == item + after;
  }

  /** A block followed by more text, regrouped. */
  lemma BlockThen(l: Layout, item: string, more: string)
    ensures Block(l, item) + more == l.prefix + (item + (l.suffix + more))
  {
    AppendAssoc(l.prefix + item, l.suffix, more);
    AppendAssoc(l.prefix, item, l.suffix + more);
  }

  lemma {:induction false} ParseBlocksUntagged(l: Layout, t: string, items: seq<string>)
    requires ParseBlocks(l, t) == Some(items)
    ensures Untagged(items)
    decreases |t|
  {
    if t != l.tail {
      var item, tail, others := ParseBlocksStep(l, t, items);
      ParseBlocksUntagged(l, tail, others);
      forall k | 0 <= k < |items|
        ensures '<' !in items[k]
      {
        if k > 0 {
          assert items[k] == others[k - 1];
        }
      }
    }
  }

  lemma {:induction false} ParseBlocksSound(l: Layout, t: string, items: seq<string>)
    requires ParseBlocks(l, t) == Some(items)
    ensures t == Blocks(l, items) + l.tail
    decreases |t|
  {
    if t == l.tail {
      assert items == [];
      assert Blocks(l, items) == [];
    } else {
      var item, tail, others := ParseBlocksStep(l, t, items);
      ParseBlocksSound(l, tail, others);
      assert items[1..] == others;
      BlocksConsLayout(l, items);
      AppendAssoc(Block(l, item), Blocks(l, others), l.tail);
      BlockThen(l, item, tail);
    }
  }

  lemma ParseSound(l: Layout, doc: string, items: seq<string>)
    requires Parse(l, doc) == Some(items)
    ensures Untagged(items) && doc == Render(l, items)
  {
    var body := doc[|l.head|..];
    assert ParseBlocks(l, body) == Some(items);
    ParseBlocksUntagged(l, body, items);
    ParseBlocksSound(l, body, items);
    assert doc == l.head + body;
  }

  lemma ParseComplete(l: Layout, items: seq<string>)
    requires Separable(l) && Untagged(items)
    ensures Parse(l, Render(l, items)) == Some(items)
  {
    var doc := Render(l, items);
    assert doc == l.head + (Blocks(l, items) + l.tail);
    assert doc[..|l.head|] == l.head;
    assert doc[|l.head|..] == Blocks(l, items) + l.tail;
    ParseBlocksRender(l, items);
  }

  /** Rendering and parsing are inverse: a document of a separable layout
      parses to a list of items exactly when it is their rendering and none
      of them contains '<'. */
  lemma ParseRender(l: Layout, doc: string, items: seq<string>)
    requires Separable(l)
    ensures Parse(l, doc) == Some(items) <==> Untagged(items) && doc == Render(l, items)
  {
    if Parse(l, doc) == Some(items) {
      ParseSound(l, doc, items);
    }
    if Untagged(items) && doc == Render(l, items) {
      ParseComplete(l, items);
    }
  }

  lemma UrlBlocksLayout(domain: string, today: string, urls: seq<string>)
    ensures UrlBlocks(domain, today, urls) == Blocks(UrlsetLayout(domain, today), urls)
  {
    var l := UrlsetLayout(domain, today);
    forall k | 0 <= k < |urls| ensures UrlBlock(domain, today, urls[k]) == Block(l, urls[k]) {
      assert AbsoluteUrl(domain, urls[k]) == AbsoluteUrl(domain, "") + urls[k];
    }
    assert seq(|urls|, k requires 0 <= k < |urls| => UrlBlock(domain, today, urls[k]))
           == seq(|urls|, k requires 0 <= k < |urls| => Block(l, urls[k]));
  }

  lemma IndexBlocksLayout(domain: string, names: seq<string>)
    ensures IndexBlocks(domain, names) == Blocks(IndexLayout(domain), names)
  {
    var l := IndexLayout(domain);
    forall k | 0 <= k < |names| ensures IndexBlock(domain, names[k]) == Block(l, names[k]) {
      assert AbsoluteUrl(domain, names[k]) == AbsoluteUrl(domain, "") + names[k];
    }
    assert seq(|names|, k requires 0 <= k < |names| => IndexBlock(domain, names[k]))
           == seq(|names|, k requires 0 <= k < |names| => Block(l, names[k]));
  }

  /** A chunk document is read back as exactly its URLs, in order, each
      under the loc https://domain/url with the given lastmod and priority
      0.8; and a text reads back as a list of URLs only if it is the chunk
      document of that list. */
  lemma ChunkDocumentRoundTrip(domain: string, today: string, doc: string, urls: seq<string>)
    ensures Parse(UrlsetLayout(domain, today), doc) == Some(urls)
            <==> Untagged(urls) && doc == ChunkDocument(domain, today, urls)
  {
    var l := UrlsetLayout(domain, today);
    assert Separable(l);
    UrlBlocksLayout(domain, today, urls);
    assert ChunkDocument(domain, today, urls) == Render(l, urls);
    ParseRender(l, doc, urls);
  }

  /** The index document is read back as exactly its file names, in order,
      each under the loc https://domain/name; and a text reads back as a list
      of names only if it is the index document of that list. */
  lemma IndexDocumentRoundTrip(domain: string, doc: string, names: seq<string>)
    ensures Parse(IndexLayout(domain), doc) == Some(names)
            <==> Untagged(names) && doc == IndexDocument(domain, names)
  {
    var l := IndexLayout(domain);
    assert Separable(l);
    IndexBlocksLayout(domain, names);
    assert IndexDocument(domain, names) == Render(l, names);
    ParseRender(l, doc, names);
  }
}
