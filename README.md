# sitemap_gen.py in Dafny

A model of `sitemap_gen.py`, a script that publishes a static site's
sitemap. It reads the site's domain from the `CNAME` file and walks the
working directory for `.html` files. From each file it derives a URL path.
It cuts the URL list into chunks of at most 2000. For each chunk it writes
a randomly named `sitemap_<token>.xml` in the sitemaps.org Sitemap protocol
0.9. It then writes the index `sitemap.xml` that lists the chunk files, and
a `robots.txt` (RFC 9309) that points at the index.

The sources of nondeterminism and the outside world are parameters:

- the outcome of reading `CNAME` is a `CnameRead` value;
- the output of `os.walk` is a sequence of `WalkStep(root, files)`;
- `dates(i)` is the date the i-th `create_sitemap_chunk` call reads from the
  clock;
- `tokens(i)` is the i-th result of `generate_random_name`;
- each file the script writes is returned as a `FileWrite(name, content)`.

A run is also modelled by the map of files it leaves behind (`Files`).

Modules, one per part of the script:

- `Seqs`: sequence helpers. These are concatenation of parts, Python's
  clamping slice and `startswith`/`endswith`.
- `Domain`: `get_domain_from_cname`, with `str.strip`.
- `Paths`: `get_all_html_files`. These are the nested loops, `posixpath.join`,
  `str.replace('./', '')` and the `index.html` cut. Both quirks are proved
  as written:
  - `myindex.html` loses ten characters too;
  - a directory such as `./v1.` also loses the `./` that ends inside it.
- `Chunking`: the comprehension that cuts the URL list into slices.
- `Sitemaps`: `create_sitemap_chunk` and `create_main_index` as loops that
  append text. A parser for the two layouts is their partner: a text parses
  to a list exactly when it is the rendering of that list. The script does
  no XML escaping, so this holds only for items with no `<`.
- `Robots`: `create_robots_txt`, with Python's `split('\n')` to read its lines
  back.
- `Generator`: `main` and `generate_random_name`. Within one run, chunk files
  are named after the tokens. The model proves which file holds which
  content, and that reading the index and then every chunk file back gives
  all the URLs in order.

Where the code and the script's own comments or documentation differ, the
model follows the code:

- Only `FileNotFoundError` falls back to `example.com`. Any other failure to
  read `CNAME` propagates and ends the run before any file is written: the
  model's `ReadFailed`, which gives `Aborted`.
- Nothing makes the domain non-empty. A `CNAME` that holds only whitespace
  gives the domain `""`.
- The suffix test is on the whole joined path, and `replace` removes every
  `./`, not only the leading one.

## Model

| member | source | states |
|---|---|---|
| Domain.Strip | sitemap_gen.py:10 | The result is a contiguous piece of the text, only whitespace is cut off on either side, and the result neither starts nor ends with whitespace |
| Domain.StripFixpoint | sitemap_gen.py:10 | Stripping leaves a text unchanged exactly when it is empty or neither starts nor ends with whitespace |
| Domain.StripIdempotent | sitemap_gen.py:10 | Stripping twice is the same as stripping once |
| Domain.StripUnique | sitemap_gen.py:10 | Any piece of the text that only whitespace surrounds and that neither starts nor ends with whitespace is the stripped text: the contract of Strip has one answer |
| Domain.DomainFromCname | sitemap_gen.py:6-14 | A readable file gives its text with only whitespace cut off on either side and none left at either end (by Domain.StripUnique, exactly its stripped text), which is non-empty unless the file is all whitespace; a missing file gives example.com; any other read failure gives no domain, and only then |
| Paths.HtmlPositions | sitemap_gen.py:24-25 | The positions of the HTML files: each in range and naming a file that ends in .html, in increasing order, and no HTML file missing |
| Paths.GetAllHtmlFiles | sitemap_gen.py:16-34 | The nested loops over the walk return the URL of every HTML file, in walk order |
| Paths.HtmlUrlsFilter | sitemap_gen.py:24-33 | One URL per HTML file and none for any other file: the k-th URL is the URL of the k-th HTML file |
| Paths.HtmlUrlsAppend | sitemap_gen.py:19-33 | The URLs of two stretches of the walk are the URLs of the first stretch followed by those of the second |
| Paths.RemoveDotSlashIdentity | sitemap_gen.py:27 | A path with no "./" in it is left unchanged by the replacement |
| Paths.RemoveDotSlashAppend | sitemap_gen.py:27 | The replacement acts on two halves of a path separately when no "./" straddles the join |
| Paths.RemoveDotSlashChars | sitemap_gen.py:27 | The replacement only deletes characters |
| Paths.IndexSuffixOfName | sitemap_gen.py:29 | For a file name without "/", the path dir/name ends in index.html exactly when the name does |
| Paths.SubdirUrlPath | sitemap_gen.py:27-32 | When rel/name holds no "./", a file in ./rel gets rel/name, or rel/ plus the name minus its last ten characters when the name ends in index.html (blog/sub/index.html gives blog/sub/, blog/page.html stays) |
| Paths.TopUrlPath | sitemap_gen.py:27-32 | For a file name without "/", a file at the top of the walk gets its name, without a trailing index.html, so index.html gives the empty path |
| Paths.SuffixQuirk | sitemap_gen.py:29-30 | A name such as myindex.html also loses its last ten characters: ./blog with myindex.html gives blog/my |
| Paths.ReplaceQuirk | sitemap_gen.py:27 | The replacement is not anchored: page.html in ./v1. gives v1page.html |
| Paths.UrlPathChars | sitemap_gen.py:27-32 | A URL is made only of characters of the directory path, the file name and "/" |
| Paths.WalkUrlsAvoid | sitemap_gen.py:19-33 | A character other than "/" that no directory path and no file name of the walk contains is in none of the URLs |
| Seqs.PySlice | sitemap_gen.py:82 | Python's slice with both ends clamped to the length of the list |
| Chunking.ChunkCount | sitemap_gen.py:79-82 | The number of chunks is the URL count divided by the chunk size, rounded up (the count times the size is at least the URL count and less than the URL count plus one size); there are no chunks exactly when there are no URLs |
| Chunking.ChunkSizes | sitemap_gen.py:79-82 | Every chunk holds between 1 and the chunk size (MAX_URLS in main) URLs, and every chunk but the last holds exactly that many |
| Chunking.ChunksConcat | sitemap_gen.py:82 | The chunks concatenated in order give back the URL list: nothing is lost, reordered or repeated |
| Chunking.ChunkOf | sitemap_gen.py:82 | The i-th URL is at offset i mod size of chunk i div size |
| Chunking.ChunkElement | sitemap_gen.py:82 | Offset o of chunk k is the URL at k * size + o: each chunk is a stretch of the list |
| Sitemaps.CreateSitemapChunk | sitemap_gen.py:41-53 | The loop builds the chunk document: the XML declaration, the urlset line, one url block per URL in order, then the closing tag |
| Sitemaps.CreateMainIndex | sitemap_gen.py:55-65 | The loop builds the index document, one sitemap block per file name in order; an empty list gives just the declaration, the sitemapindex line and its closing tag |
| Sitemaps.ParseRender | sitemap_gen.py:43-63 | For either layout, a text parses to a list of items exactly when it is the rendering of that list and no item contains "<" |
| Sitemaps.ChunkDocumentRoundTrip | sitemap_gen.py:43-51 | A chunk document parses back to exactly its URLs, each at loc https://domain/url with the given lastmod and priority 0.8; a text parses to a list of URLs only if it is the chunk document of that list |
| Sitemaps.IndexDocumentRoundTrip | sitemap_gen.py:57-63 | The index parses back to exactly its file names, each at loc https://domain/name; a text parses to a list of names only if it is the index of that list |
| Robots.RobotsLines | sitemap_gen.py:67-72 | For a domain with no line feed, the robots text is exactly four lines: "User-agent: *", "Allow: /", an empty line, and "Sitemap: https://domain/sitemap.xml" |
| Generator.GenerateSite | sitemap_gen.py:74-97 | A run aborts exactly when reading CNAME fails with anything other than FileNotFoundError; otherwise it writes the i-th chunk's document to sitemap_<token i>.xml for each chunk in order, then sitemap.xml listing those names in order, then robots.txt |
| Generator.ChunkFileNameShape | sitemap_gen.py:36-39 | A token of 8 characters from a-z and 0-9 gives a 20-character chunk file name with no "<", "/" or line feed, different from sitemap.xml and robots.txt |
| Generator.ChunkFileNameInjective | sitemap_gen.py:86 | Two chunk file names are equal exactly when their tokens are |
| Generator.SiteWritesAt | sitemap_gen.py:84-97 | A run makes one write per chunk, named after that chunk's token, then the index write and the robots write |
| Generator.SiteKeys | sitemap_gen.py:84-97 | A run leaves exactly its chunk files, sitemap.xml and robots.txt |
| Generator.SiteIndexAndRobots | sitemap_gen.py:91-97 | For any tokens, sitemap.xml holds the index of the chunk file names in order, and robots.txt holds the robots text |
| Generator.SiteChunkFile | sitemap_gen.py:85-88 | With pairwise different tokens that generate_random_name can return, the i-th chunk file holds the document of the i-th chunk |
| Generator.SiteFiles | sitemap_gen.py:84-97 | With pairwise different tokens, the files a run leaves and the content of each |
| Generator.SiteRecoversUrls | sitemap_gen.py:79-92 | With pairwise different tokens and URLs without "<", reading sitemap.xml back gives the chunk file names; each is a file whose document reads back as 1 to MAX_URLS URLs; and these lists, in index order, give every URL in its original order |
| Generator.SiteRobotsPointsAtIndex | sitemap_gen.py:67-72 | For a domain with no line feed, the last line of robots.txt is the Sitemap record for the absolute URL of sitemap.xml, a file the same run writes |
| Generator.EmptySite | sitemap_gen.py:79-96 | A site with no HTML file gets no chunk file: the run writes only an index with no entry, then robots.txt |
| Generator.WalkUrlsUntagged | sitemap_gen.py:24-33 | A walk with no "<" in its paths and file names gives URLs with none, so the read-back lemmas apply to it |

## Left out

- Directory traversal: `os.walk` and the pruning of `.git` (sitemap_gen.py:19-22) are replaced by the walk given as input. The order of that walk is whatever the platform produces.
- Printing: the warning and progress lines (sitemap_gen.py:13, 89, 93, 97) are output only.
- File I/O: reading `CNAME` is an input value. Every write is returned as a `FileWrite` and is assumed to succeed, so a write failure that aborts the run partway is not modelled.
- Earlier runs: `Files` holds only what this run writes. Chunk files left by earlier runs stay on disk in reality and are not part of the model.
- Clock: the date each `create_sitemap_chunk` call reads is the parameter `dates(i)`. Its format (`%Y-%m-%d`) is not constrained.
- Randomness: the tokens are the parameter `tokens`. `IsRandomName` states what `generate_random_name` can return, and only its default length 8 is used.
- Generator.SiteFiles, Generator.SiteChunkFile and Generator.SiteRecoversUrls assume pairwise different tokens. The script never checks this, and two equal tokens make the later chunk overwrite the earlier one's file.
- Domain.Strip: only whitespace below U+0080 is removed (space, tab to carriage return, U+001C to U+001F). Python also strips non-ASCII whitespace such as U+0085 and U+00A0.
- Decoding of `CNAME`: undecodable bytes and every other read error other than a missing file are one case, `ReadFailed`.
- XML escaping: the script does not escape `<` or `&` in URLs, and the model does not add it. The read-back lemmas therefore require items without `<`.
- `posixpath.join` only: Windows path joining is not modelled.
