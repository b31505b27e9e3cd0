/** main and generate_random_name: read the domain, collect the URLs, write
    one randomly named sitemap file per chunk of at most MAX_URLS URLs, then
    the sitemap index and robots.txt. The files written are returned as a
    list of writes, in the order they happen; the clock and the random
    generator are parameters. */
module Generator {
  import opened Results
  import opened Seqs
  import opened Domain
  import opened Paths
  import opened Chunking
  import opened Sitemaps
  import opened Robots

  /** generate_random_name's default length. */
  const TOKEN_LENGTH: nat := 8

  /** string.ascii_lowercase + string.digits. */
  const TOKEN_ALPHABET: string := "abcdefghijklmnopqrstuvwxyz0123456789"

  /** What generate_random_name(length) can return: `length` characters,
      each drawn from the lower-case letters and the digits. */
  predicate IsRandomName(t: string, length: nat)
  {
    |t| == length && forall i :: 0 <= i < |t| ==> t[i] in TOKEN_ALPHABET
  }

  /** The name main gives a chunk file for a random token. */
  function ChunkFileName(token: string): string
  {
    "sitemap_" + token + ".xml"
  }

  /** One file written: its name and its whole content. */
  datatype FileWrite = FileWrite(name: string, content: string)

  /** A run either writes its files, in order, or stops before writing any
      because the CNAME file could not be read. */
  datatype RunResult = Completed(writes: seq<FileWrite>) | Aborted

  /** The chunk file names of the first n chunks: the i-th from the i-th
      random token. */
  function ChunkNames(tokens: nat -> string, n: nat): seq<string>
  {
    seq(n, i requires 0 <= i < n => ChunkFileName(tokens(i)))
  }

  /** The chunk files of the first n chunks: the i-th is named by the i-th
      token and dated by the i-th reading of the clock. */
  function ChunkWrites(domain: string, dates: nat -> string, tokens: nat -> string,
                       chunks: seq<seq<string>>): seq<FileWrite>
  {
    seq(|chunks|, i requires 0 <= i < |chunks| =>
      FileWrite(ChunkFileName(tokens(i)), ChunkDocument(domain, dates(i), chunks[i])))
  }

  lemma ChunkWritesSnoc(domain: string, dates: nat -> string, tokens: nat -> string,
                        chunks: seq<seq<string>>, i: nat)
    requires i < |chunks|
    ensures ChunkWrites(domain, dates, tokens, chunks[..i + 1])
            == ChunkWrites(domain, dates, tokens, chunks[..i])
               + [FileWrite(ChunkFileName(tokens(i)), ChunkDocument(domain, dates(i), chunks[i]))]
    ensures ChunkNames(tokens, i + 1) == ChunkNames(tokens, i) + [ChunkFileName(tokens(i))]
  {
  }

  /** Everything a run with the given domain and URLs writes: the chunk
      files, then sitemap.xml listing them, then robots.txt. */
  function SiteWrites(domain: string, dates: nat -> string, tokens: nat -> string,
                      urls: seq<string>): seq<FileWrite>
  {
    var chunks := Chunks(urls, MAX_URLS);
    ChunkWrites(domain, dates, tokens, chunks)
    + [FileWrite(INDEX_FILE_NAME, IndexDocument(domain, ChunkNames(tokens, |chunks|))),
       FileWrite(ROBOTS_FILE_NAME, RobotsTxt(domain))]
  }

  /** main over a given CNAME read, directory walk, clock and random
      generator: `dates(i)` is the date the i-th create_sitemap_chunk call
      reads, `tokens(i)` the i-th generate_random_name result. */
  method GenerateSite(cname: CnameRead, walk: seq<WalkStep>, dates: nat -> string,
                      tokens: nat -> string) returns (result: RunResult)
    ensures result.Aborted? <==> cname.ReadFailed?
    ensures result.Completed? ==>
              result.writes == SiteWrites(DomainFromCname(cname).value, dates, tokens,
                                          HtmlUrls(WalkEntries(walk)))
  {
    var found := DomainFromCname(cname);
    if found.None? {
      return Aborted;
    }
    var domain := found.value;
    var allUrls := GetAllHtmlFiles(walk);
    var chunks := Chunks(allUrls, MAX_URLS);
    var sitemapFilenames: seq<string> := [];
    var writes: seq<FileWrite> := [];
    for i := 0 to |chunks|
      invariant sitemapFilenames == ChunkNames(tokens, i)
      invariant writes == ChunkWrites(domain, dates, tokens, chunks[..i])
    {
      var randName := ChunkFileName(tokens(i));
      var content := CreateSitemapChunk(chunks[i], domain, dates(i));
      assert content == ChunkDocument(domain, dates(i), chunks[i]);
      ChunkWritesSnoc(domain, dates, tokens, chunks, i);
      writes := writes + [FileWrite(randName, content)];
      sitemapFilenames := sitemapFilenames + [randName];
    }
    assert chunks[..|chunks|] == chunks;
    assert writes == ChunkWrites(domain, dates, tokens, chunks);
    assert sitemapFilenames == ChunkNames(tokens, |chunks|);
    var index := CreateMainIndex(sitemapFilenames, domain);
    writes := writes + [FileWrite(INDEX_FILE_NAME, index), FileWrite(ROBOTS_FILE_NAME, RobotsTxt(domain))];
    return Completed(writes);
  }

  /** A lower-case ASCII letter or an ASCII digit. */
  predicate IsTokenChar(c: char)
  {
    'a' <= c <= 'z' || '0' <= c <= '9'
  }

  lemma AlphabetChars()
    ensures forall c :: c in TOKEN_ALPHABET ==> IsTokenChar(c)
  {
    forall i | 0 <= i < |TOKEN_ALPHABET|
      ensures IsTokenChar(TOKEN_ALPHABET[i])
    {
    }
  }

  /** Not a character that would end an XML text, leave the directory or
      break a line. */
  predicate PlainChar(c: char)
  {
    c != '<' && c != '/' && c != '\n'
  }

  lemma NameLiteralsPlain()
    ensures forall i :: 0 <= i < |"sitemap_"| ==> PlainChar("sitemap_"[i])
    ensures forall i :: 0 <= i < |".xml"| ==> PlainChar(".xml"[i])
  {
  }

  /** A token generate_random_name can return gives a chunk file name of
      fixed length, with no '<', no '/' and no line feed in it, and different
      from the index and robots file names. */
  lemma ChunkFileNameShape(token: string)
    requires IsRandomName(token, TOKEN_LENGTH)
    ensures |ChunkFileName(token)| == 12 + TOKEN_LENGTH
    ensures '<' !in ChunkFileName(token) && '/' !in ChunkFileName(token) && '\n' !in ChunkFileName(token)
    ensures ChunkFileName(token) != INDEX_FILE_NAME && ChunkFileName(token) != ROBOTS_FILE_NAME
  {
    AlphabetChars();
    NameLiteralsPlain();
    var a, b := "sitemap_", ".xml";
    var name := a + token + b;
    forall i | 0 <= i < |name|
      ensures PlainChar(name[i])
    {
      if i < |a| {
        assert name[i] == a[i];
      } else if i < |a| + |token| {
        assert name[i] == token[i - |a|];
        assert IsTokenChar(token[i - |a|]);
      } else {
        assert name[i] == b[i - |a| - |token|];
      }
    }
    assert |INDEX_FILE_NAME| == 11 && |ROBOTS_FILE_NAME| == 10;
  }

  /** Different tokens give different chunk file names. */
  lemma ChunkFileNameInjective(a: string, b: string)
    ensures ChunkFileName(a) == ChunkFileName(b) <==> a == b
  {
    if ChunkFileName(a) == ChunkFileName(b) {
      var na, nb := ChunkFileName(a), ChunkFileName(b);
      assert |a| == |b|;
      assert a == na[8..8 + |a|];
      assert b == nb[8..8 + |b|];
    }
  }

  /** The first n tokens are pairwise different. */
  predicate DistinctTokens(tokens: nat -> string, n: nat)
  {
    forall i: nat, j: nat :: i < j < n ==> tokens(i) != tokens(j)
  }

  /** The first n tokens are all names generate_random_name can return. */
  predicate RandomTokens(tokens: nat -> string, n: nat)
  {
    forall i: nat :: i < n ==> IsRandomName(tokens(i), TOKEN_LENGTH)
  }

  /** The files the writes leave, each with the content its last write gave
      it; files the run does not write are not part of this map. */
  function Files(writes: seq<FileWrite>): map<string, string>
  {
    if writes == [] then map[]
    else
      var last := writes[|writes| - 1];
      Files(writes[..|writes| - 1])[last.name := last.content]
  }

  /** The files left are exactly the names written to. */
  lemma {:induction false} FilesKeys(writes: seq<FileWrite>)
    ensures Files(writes).Keys == set j | 0 <= j < |writes| :: writes[j].name
  {
    if writes != [] {
      var init := writes[..|writes| - 1];
      FilesKeys(init);
      assert forall j :: 0 <= j < |init| ==> init[j] == writes[j];
      assert (set j | 0 <= j < |writes| :: writes[j].name)
             == (set j | 0 <= j < |init| :: init[j].name) + {writes[|writes| - 1].name};
    }
  }

  /** A file holds what the last write to its name put there. */
  lemma {:induction false} FilesLastWrite(writes: seq<FileWrite>, k: nat)
    requires k < |writes|
    requires forall j :: k < j < |writes| ==> writes[j].name != writes[k].name
    ensures writes[k].name in Files(writes) && Files(writes)[writes[k].name] == writes[k].content
  {
    var init := writes[..|writes| - 1];
    if k < |writes| - 1 {
      assert forall j :: k < j < |init| ==> init[j] == writes[j];
      FilesLastWrite(init, k);
    }
  }

  /** The write at each position of a run's list: the chunk files first,
      then the index, then robots.txt. */
  lemma SiteWritesAt(domain: string, dates: nat -> string, tokens: nat -> string, urls: seq<string>)
    ensures var n := |Chunks(urls, MAX_URLS)|;
            var ws := SiteWrites(domain, dates, tokens, urls);
            |ws| == n + 2
            && (forall i :: 0 <= i < n ==> ws[i].name == ChunkFileName(tokens(i)))
            && ws[n].name == INDEX_FILE_NAME && ws[n + 1].name == ROBOTS_FILE_NAME
  {
  }

  /** Writes to the given names and then to `a` and `b` leave exactly those
      names. */
  lemma FilesNamed(ws: seq<FileWrite>, names: seq<string>, a: string, b: string)
    requires |ws| == |names| + 2
    requires forall j :: 0 <= j < |names| ==> ws[j].name == names[j]
    requires ws[|names|].name == a && ws[|names| + 1].name == b
    ensures Files(ws).Keys == (set x | x in names) + {a, b}
  {
    FilesKeys(ws);
    WrittenNames(ws, names, a, b);
  }

  lemma WrittenNames(ws: seq<FileWrite>, names: seq<string>, a: string, b: string)
    requires |ws| == |names| + 2
    requires forall j :: 0 <= j < |names| ==> ws[j].name == names[j]
    requires ws[|names|].name == a && ws[|names| + 1].name == b
    ensures (set j | 0 <= j < |ws| :: ws[j].name) == (set x | x in names) + {a, b}
  {
    var n := |names|;
    var written := set j | 0 <= j < |ws| :: ws[j].name;
    var expected := (set x | x in names) + {a, b};
    assert written <= expected by {
      forall y | y in written
        ensures y in expected
      {
        var j :| 0 <= j < |ws| && ws[j].name == y;
        if j < n {
          assert names[j] == y;
        }
      }
    }
    assert expected <= written by {
      forall x | x in expected
        ensures x in written
      {
        if x == a {
          assert ws[n].name == x;
        } else if x == b {
          assert ws[n + 1].name == x;
        } else {
          var i :| 0 <= i < |names| && names[i] == x;
          assert ws[i].name == x;
        }
      }
    }
  }

  /** A run leaves exactly its chunk files, sitemap.xml and robots.txt. */
  lemma SiteKeys(domain: string, dates: nat -> string, tokens: nat -> string, urls: seq<string>)
    ensures Files(SiteWrites(domain, dates, tokens, urls)).Keys
            == (set x | x in ChunkNames(tokens, |Chunks(urls, MAX_URLS)|)) + {INDEX_FILE_NAME, ROBOTS_FILE_NAME}
  {
    SiteWritesAt(domain, dates, tokens, urls);
    FilesNamed(SiteWrites(domain, dates, tokens, urls), ChunkNames(tokens, |Chunks(urls, MAX_URLS)|),
               INDEX_FILE_NAME, ROBOTS_FILE_NAME);
  }

  /** The last two writes of a run are sitemap.xml and robots.txt, so these
      files hold the index and the robots text whatever the tokens are. */
  lemma SiteIndexAndRobots(domain: string, dates: nat -> string, tokens: nat -> string, urls: seq<string>)
    ensures var fs := Files(SiteWrites(domain, dates, tokens, urls));
            INDEX_FILE_NAME in fs && ROBOTS_FILE_NAME in fs
            && fs[INDEX_FILE_NAME] == IndexDocument(domain, ChunkNames(tokens, |Chunks(urls, MAX_URLS)|))
            && fs[ROBOTS_FILE_NAME] == RobotsTxt(domain)
  {
    var n := |Chunks(urls, MAX_URLS)|;
    var ws := SiteWrites(domain, dates, tokens, urls);
    SiteWritesAt(domain, dates, tokens, urls);
    assert |INDEX_FILE_NAME| != |ROBOTS_FILE_NAME|;
    FilesLastWrite(ws, n);
    FilesLastWrite(ws, n + 1);
  }

  /** With pairwise different random tokens, the i-th chunk file holds the
      document of the i-th chunk. */
  lemma SiteChunkFile(domain: string, dates: nat -> string, tokens: nat -> string, urls: seq<string>, i: nat)
    requires DistinctTokens(tokens, NumChunks(|urls|, MAX_URLS))
    requires RandomTokens(tokens, NumChunks(|urls|, MAX_URLS))
    requires i < NumChunks(|urls|, MAX_URLS)
    ensures var fs := Files(SiteWrites(domain, dates, tokens, urls));
            ChunkFileName(tokens(i)) in fs
            && fs[ChunkFileName(tokens(i))] == ChunkDocument(domain, dates(i), Chunks(urls, MAX_URLS)[i])
  {
    var n := |Chunks(urls, MAX_URLS)|;
    var ws := SiteWrites(domain, dates, tokens, urls);
    SiteWritesAt(domain, dates, tokens, urls);
    ChunkFileNameShape(tokens(i));
    forall j | i < j < |ws|
      ensures ws[j].name != ws[i].name
    {
      if j < n {
        ChunkFileNameInjective(tokens(i), tokens(j));
      }
    }
    FilesLastWrite(ws, i);
  }

  /** With pairwise different random tokens, a run leaves exactly its chunk
      files, sitemap.xml and robots.txt: the i-th chunk file holds the
      document of the i-th chunk, sitemap.xml the index of the chunk file
      names in order, robots.txt the robots text. */
  lemma SiteFiles(domain: string, dates: nat -> string, tokens: nat -> string, urls: seq<string>)
    requires DistinctTokens(tokens, NumChunks(|urls|, MAX_URLS))
    requires RandomTokens(tokens, NumChunks(|urls|, MAX_URLS))
    ensures var chunks := Chunks(urls, MAX_URLS);
            var names := ChunkNames(tokens, |chunks|);
            var fs := Files(SiteWrites(domain, dates, tokens, urls));
            fs.Keys == (set x | x in names) + {INDEX_FILE_NAME, ROBOTS_FILE_NAME}
            && fs[INDEX_FILE_NAME] == IndexDocument(domain, names)
            && fs[ROBOTS_FILE_NAME] == RobotsTxt(domain)
            && forall i :: 0 <= i < |chunks| ==> fs[names[i]] == ChunkDocument(domain, dates(i), chunks[i])
  {
    SiteKeys(domain, dates, tokens, urls);
    SiteIndexAndRobots(domain, dates, tokens, urls);
    forall i | 0 <= i < |Chunks(urls, MAX_URLS)|
      ensures var fs := Files(SiteWrites(domain, dates, tokens, urls));
              fs[ChunkNames(tokens, |Chunks(urls, MAX_URLS)|)[i]]
              == ChunkDocument(domain, dates(i), Chunks(urls, MAX_URLS)[i])
    {
      SiteChunkFile(domain, dates, tokens, urls, i);
    }
  }

  /** Each chunk of a list with no '<' in it has none either. */
  lemma ChunksUntagged(urls: seq<string>, k: nat)
    requires Untagged(urls) && k < |Chunks(urls, MAX_URLS)|
    ensures Untagged(Chunks(urls, MAX_URLS)[k])
  {
    var chunk := Chunks(urls, MAX_URLS)[k];
    forall o | 0 <= o < |chunk|
      ensures '<' !in chunk[o]
    {
      ChunkElement(urls, MAX_URLS, k, o);
    }
  }

  /** The chunk file names of random tokens have no '<' in them. */
  lemma ChunkNamesUntagged(tokens: nat -> string, n: nat)
    requires RandomTokens(tokens, n)
    ensures Untagged(ChunkNames(tokens, n))
  {
    forall i | 0 <= i < n
      ensures '<' !in ChunkNames(tokens, n)[i]
    {
      ChunkFileNameShape(tokens(i));
    }
  }

  /** Reading the site back: sitemap.xml parses to the list of chunk file
      names; each of them is a file whose document parses to a list of 1 to
      MAX_URLS URLs; and those lists, in the index's order, are all the URLs
      in their original order. It needs pairwise different random tokens and
      URLs with no '<' in them, since nothing is escaped. */
  lemma SiteRecoversUrls(domain: string, dates: nat -> string, tokens: nat -> string, urls: seq<string>)
    requires DistinctTokens(tokens, NumChunks(|urls|, MAX_URLS))
    requires RandomTokens(tokens, NumChunks(|urls|, MAX_URLS))
    requires Untagged(urls)
    ensures var chunks := Chunks(urls, MAX_URLS);
            var names := ChunkNames(tokens, |chunks|);
            var fs := Files(SiteWrites(domain, dates, tokens, urls));
            INDEX_FILE_NAME in fs
            && Parse(IndexLayout(domain), fs[INDEX_FILE_NAME]) == Some(names)
            && (forall i :: 0 <= i < |names| ==>
                  names[i] in fs
                  && Parse(UrlsetLayout(domain, dates(i)), fs[names[i]]) == Some(chunks[i])
                  && 1 <= |chunks[i]| <= MAX_URLS)
            && Flatten(chunks) == urls
  {
    var chunks := Chunks(urls, MAX_URLS);
    var names := ChunkNames(tokens, |chunks|);
    var fs := Files(SiteWrites(domain, dates, tokens, urls));
    SiteIndexAndRobots(domain, dates, tokens, urls);
    ChunkNamesUntagged(tokens, |chunks|);
    IndexDocumentRoundTrip(domain, fs[INDEX_FILE_NAME], names);
    ChunkSizes(urls, MAX_URLS);
    forall i | 0 <= i < |names|
      ensures names[i] in fs
      ensures Parse(UrlsetLayout(domain, dates(i)), fs[names[i]]) == Some(chunks[i])
    {
      SiteChunkFile(domain, dates, tokens, urls, i);
      ChunksUntagged(urls, i);
      ChunkDocumentRoundTrip(domain, dates(i), fs[names[i]], chunks[i]);
    }
    ChunksConcat(urls, MAX_URLS);
  }

  /** robots.txt ends with a Sitemap record whose URL is that of
      sitemap.xml, a file the same run writes. */
  lemma SiteRobotsPointsAtIndex(domain: string, dates: nat -> string, tokens: nat -> string, urls: seq<string>)
    requires '\n' !in domain
    ensures var fs := Files(SiteWrites(domain, dates, tokens, urls));
            ROBOTS_FILE_NAME in fs && INDEX_FILE_NAME in fs
            && Lines(fs[ROBOTS_FILE_NAME])[|Lines(fs[ROBOTS_FILE_NAME])| - 1]
               == "Sitemap: " + AbsoluteUrl(domain, INDEX_FILE_NAME)
  {
    SiteIndexAndRobots(domain, dates, tokens, urls);
    RobotsLines(domain);
  }

  /** A site with no HTML file gets no chunk file: only an index with no
      entry and robots.txt are written. */
  lemma EmptySite(domain: string, dates: nat -> string, tokens: nat -> string)
    ensures SiteWrites(domain, dates, tokens, [])
            == [FileWrite(INDEX_FILE_NAME, XML_DECLARATION + INDEX_OPEN + INDEX_CLOSE),
                FileWrite(ROBOTS_FILE_NAME, RobotsTxt(domain))]
  {
    var none: seq<string> := [];
    var chunks := Chunks(none, MAX_URLS);
    ChunkCount(none, MAX_URLS);
    assert chunks == [];
    assert ChunkNames(tokens, 0) == [];
    var noBlocks: seq<string> := [];
    assert IndexBlocks(domain, noBlocks) == "";
    assert IndexDocument(domain, noBlocks) == XML_DECLARATION + INDEX_OPEN + INDEX_CLOSE;
    assert SiteWrites(domain, dates, tokens, none)
           == ChunkWrites(domain, dates, tokens, chunks)
              + [FileWrite(INDEX_FILE_NAME, IndexDocument(domain, noBlocks)),
                 FileWrite(ROBOTS_FILE_NAME, RobotsTxt(domain))];
  }

  /** A walk whose directory paths and file names have no '<' gives URLs
      with none, so SiteRecoversUrls applies to the URLs of that walk. */
  lemma WalkUrlsUntagged(walk: seq<WalkStep>)
    requires forall s :: 0 <= s < |walk| ==> '<' !in walk[s].root && forall f :: f in walk[s].files ==> '<' !in f
    ensures Untagged(HtmlUrls(WalkEntries(walk)))
  {
    WalkUrlsAvoid(walk, '<');
  }
}
