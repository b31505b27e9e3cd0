/** URL path derivation: get_all_html_files with the directory walk given as
    input. */
module Paths {
  import opened Seqs

  /** One directory the walk visits: its root as os.walk reports it ("." for
      the top, "./a/b" below it) and its file names in the walk's order. */
  datatype WalkStep = WalkStep(root: string, files: seq<string>)

  /** One iteration of the inner loop: a directory root and a file name. */
  datatype FileEntry = FileEntry(root: string, name: string)

  const HTML_SUFFIX: string := ".html"
  const INDEX_SUFFIX: string := "index.html"

  /** posixpath.join(a, b): an absolute `b` replaces `a`; otherwise a "/" is
      inserted unless `a` is empty or already ends with one. */
  function JoinPath(a: string, b: string): string
  {
    if StartsWith(b, "/") then b
    else if a == [] || EndsWith(a, "/") then a + b
    else a + "/" + b
  }

  /** Python's `s.replace('./', '')`: scanning left to right, every
      non-overlapping occurrence of "./" is dropped; the text that results is
      not scanned again. */
  function RemoveDotSlash(s: string): string
  {
    if |s| < 2 then s
    else if s[0] == '.' && s[1] == '/' then RemoveDotSlash(s[2..])
    else [s[0]] + RemoveDotSlash(s[1..])
  }

  /** `s` has no "./" in it. */
  predicate NoDotSlash(s: string)
  {
    forall i :: 0 <= i < |s| - 1 ==> !(s[i] == '.' && s[i + 1] == '/')
  }

  predicate IsHtml(name: string)
  {
    EndsWith(name, HTML_SUFFIX)
  }

  /** The URL path the loop body derives for one HTML file. */
  function UrlPath(e: FileEntry): string
  {
    var fullPath := RemoveDotSlash(JoinPath(e.root, e.name));
    if EndsWith(fullPath, INDEX_SUFFIX) then fullPath[..|fullPath| - 10] else fullPath
  }

  /** The (root, file) pairs of one directory, in order. */
  function StepEntries(step: WalkStep): seq<FileEntry>
  {
    seq(|step.files|, k requires 0 <= k < |step.files| => FileEntry(step.root, step.files[k]))
  }

  /** The (root, file) pairs of the whole walk, in the order the nested loops
      visit them. */
  function WalkEntries(walk: seq<WalkStep>): seq<FileEntry>
  {
    Flatten(seq(|walk|, i requires 0 <= i < |walk| => StepEntries(walk[i])))
  }

  /** The URLs the loops append for the given pairs: one per HTML file, in
      order, none for any other file. */
  function HtmlUrls(entries: seq<FileEntry>): seq<string>
  {
    if entries == [] then []
    else
      var last := entries[|entries| - 1];
      HtmlUrls(entries[..|entries| - 1]) + (if IsHtml(last.name) then [UrlPath(last)] else [])
  }

  /** `ps` lists the positions of the HTML files among the pairs: each is
      in range and names an HTML file, they are in increasing order, and
      every HTML file's position is among them. */
  predicate HtmlPositionsOf(entries: seq<FileEntry>, ps: seq<nat>)
  {
    (forall k :: 0 <= k < |ps| ==> ps[k] < |entries| && IsHtml(entries[ps[k]].name))
    && (forall k :: 0 < k < |ps| ==> ps[k - 1] < ps[k])
    && (forall i :: 0 <= i < |entries| && IsHtml(entries[i].name) ==> i in ps)
  }

  function HtmlPositions(entries: seq<FileEntry>): (ps: seq<nat>)
    ensures HtmlPositionsOf(entries, ps)
  {
    if entries == [] then []
    else
      var n := |entries| - 1;
      var before := HtmlPositions(entries[..n]);
      HtmlPositionsSnoc(entries, before);
      before + (if IsHtml(entries[n].name) then [n] else [])
  }

  lemma HtmlPositionsSnoc(entries: seq<FileEntry>, before: seq<nat>)
    requires entries != [] && HtmlPositionsOf(entries[..|entries| - 1], before)
    ensures var n := |entries| - 1;
            HtmlPositionsOf(entries, before + (if IsHtml(entries[n].name) then [n] else []))
  {
    var n := |entries| - 1;
    var init := entries[..n];
    var ps := before + (if IsHtml(entries[n].name) then [n] else []);
    assert forall i :: 0 <= i < n ==> init[i] == entries[i];
    assert forall k :: 0 <= k < |before| ==> ps[k] == before[k];
  }

  /** get_all_html_files over a given walk. */
  method GetAllHtmlFiles(walk: seq<WalkStep>) returns (htmlFiles: seq<string>)
    ensures htmlFiles == HtmlUrls(WalkEntries(walk))
  {
    htmlFiles := [];
    for i := 0 to |walk|
      invariant htmlFiles == HtmlUrls(WalkEntries(walk[..i]))
    {
      var root, files := walk[i].root, walk[i].files;
      ghost var done := WalkEntries(walk[..i]);
      assert done + StepEntries(walk[i])[..0] == done;
      for j := 0 to |files|
        invariant htmlFiles == HtmlUrls(done + StepEntries(walk[i])[..j])
      {
        var file := files[j];
        VisitFile(done, walk[i], j);
        if EndsWith(file, HTML_SUFFIX) {
          var fullPath := RemoveDotSlash(JoinPath(root, file));
          var urlPath;
          if EndsWith(fullPath, INDEX_SUFFIX) {
            urlPath := fullPath[..|fullPath| - 10];
          } else {
            urlPath := fullPath;
          }
          assert urlPath == UrlPath(FileEntry(root, file));
          htmlFiles := htmlFiles + [urlPath];
        }
      }
      WalkEntriesSnoc(walk, i);
    }
    assert walk[..|walk|] == walk;
  }

  /** Visiting one more file of a directory adds its URL when it is an HTML
      file and nothing otherwise. */
  lemma VisitFile(done: seq<FileEntry>, step: WalkStep, j: nat)
    requires j < |step.files|
    ensures HtmlUrls(done + StepEntries(step)[..j + 1])
            == HtmlUrls(done + StepEntries(step)[..j])
               + (if IsHtml(step.files[j]) then [UrlPath(FileEntry(step.root, step.files[j]))] else [])
  {
    var visited := done + StepEntries(step)[..j + 1];
    assert visited[..|visited| - 1] == done + StepEntries(step)[..j];
    assert visited[|visited| - 1] == FileEntry(step.root, step.files[j]);
  }

  lemma WalkEntriesSnoc(walk: seq<WalkStep>, i: nat)
    requires i < |walk|
    ensures WalkEntries(walk[..i + 1]) == WalkEntries(walk[..i]) + StepEntries(walk[i])[..|walk[i].files|]
  {
    var prefix := walk[..i];
    var parts := seq(|prefix|, k requires 0 <= k < |prefix| => StepEntries(prefix[k]));
    var next := walk[..i + 1];
    assert seq(|next|, k requires 0 <= k < |next| => StepEntries(next[k])) == parts + [StepEntries(walk[i])];
    FlattenSnoc(parts, StepEntries(walk[i]));
    assert StepEntries(walk[i])[..|walk[i].files|] == StepEntries(walk[i]);
  }

  /** Filtering: one URL per HTML file, in the order of the files, nothing
      for any other file: the k-th URL is that of the file at the k-th
      position HtmlPositions lists. */
  lemma {:induction false} HtmlUrlsFilter(entries: seq<FileEntry>)
    ensures |HtmlUrls(entries)| == |HtmlPositions(entries)|
    ensures forall k :: 0 <= k < |HtmlPositions(entries)| ==>
              HtmlUrls(entries)[k] == UrlPath(entries[HtmlPositions(entries)[k]])
  {
    if entries != [] {
      var n := |entries| - 1;
      var init := entries[..n];
      HtmlUrlsFilter(init);
      var us, ps := HtmlUrls(init), HtmlPositions(init);
      var urls, positions := HtmlUrls(entries), HtmlPositions(entries);
      var html := IsHtml(entries[n].name);
      assert urls == us + (if html then [UrlPath(entries[n])] else []);
      assert positions == ps + (if html then [n] else []);
      forall k | 0 <= k < |positions|
        ensures urls[k] == UrlPath(entries[positions[k]])
      {
        if k < |ps| {
          assert urls[k] == us[k] && positions[k] == ps[k];
          assert entries[ps[k]] == init[ps[k]];
        }
      }
    }
  }

  /** The URLs of two stretches of pairs are the URLs of the first followed
      by those of the second. */
  lemma {:induction false} HtmlUrlsAppend(a: seq<FileEntry>, b: seq<FileEntry>)
    ensures HtmlUrls(a + b) == HtmlUrls(a) + HtmlUrls(b)
  {
    if b == [] {
      assert a + b == a;
    } else {
      var n := |b| - 1;
      assert (a + b)[..|a + b| - 1] == a + b[..n];
      assert (a + b)[|a + b| - 1] == b[n];
      HtmlUrlsAppend(a, b[..n]);
    }
  }

  /** A path with no "./" in it is left as it is by the replacement. */
  lemma {:induction false} RemoveDotSlashIdentity(s: string)
    requires NoDotSlash(s)
    ensures RemoveDotSlash(s) == s
  {
    if |s| >= 2 {
      assert !(s[0] == '.' && s[1] == '/');
      var rest := s[1..];
      assert forall i :: 0 <= i < |rest| ==> rest[i] == s[i + 1];
      RemoveDotSlashIdentity(rest);
      assert [s[0]] + rest == s;
    }
  }

  /** A file name ends in "index.html" exactly when the path made by putting
      a directory in front of it does, since "index.html" has no "/". */
  lemma IndexSuffixOfName(dir: string, name: string)
    requires '/' !in name
    ensures EndsWith(dir + "/" + name, INDEX_SUFFIX) <==> EndsWith(name, INDEX_SUFFIX)
  {
    var p := dir + "/" + name;
    if |name| >= 10 {
      assert p[|p| - 10..] == name[|name| - 10..];
    } else if |p| >= 10 {
      var tail := p[|p| - 10..];
      assert tail[9 - |name|] == p[|dir|] == '/';
      assert '/' in tail;
      assert '/' !in INDEX_SUFFIX;
    }
  }

  lemma JoinUnderDirectory(a: string, b: string)
    requires a != [] && a[|a| - 1] != '/'
    requires '/' !in b
    ensures JoinPath(a, b) == a + "/" + b
  {
    assert !StartsWith(b, "/") by { assert |b| >= 1 ==> b[0] in b; }
  }

  lemma DropLeadingDotSlash(s: string)
    ensures RemoveDotSlash("./" + s) == RemoveDotSlash(s)
  {
    assert ("./" + s)[2..] == s;
  }

  /** UrlPath once the "./" removal is known. */
  lemma UrlPathOfFull(e: FileEntry, full: string)
    requires RemoveDotSlash(JoinPath(e.root, e.name)) == full
    ensures UrlPath(e) == if EndsWith(full, INDEX_SUFFIX) then full[..|full| - 10] else full
  {
  }

  /** The URL of a file in a subdirectory "./rel" of the walk whose path has
      no "./" in it: the relative path "rel/name", with a trailing
      "index.html" of the name cut off. So "./blog/sub" with "index.html"
      gives "blog/sub/" and "./blog" with "page.html" gives "blog/page.html". */
  lemma SubdirUrlPath(rel: string, name: string)
    requires rel != [] && rel[|rel| - 1] != '/'
    requires '/' !in name
    requires NoDotSlash(rel + "/" + name)
    ensures UrlPath(FileEntry("./" + rel, name))
            == rel + "/" + (if EndsWith(name, INDEX_SUFFIX) then name[..|name| - 10] else name)
  {
    var root := "./" + rel;
    var p := rel + "/" + name;
    JoinUnderDirectory(root, name);
    assert root + "/" + name == "./" + p;
    DropLeadingDotSlash(p);
    RemoveDotSlashIdentity(p);
    UrlPathOfFull(FileEntry(root, name), p);
    IndexSuffixOfName(rel, name);
    if EndsWith(name, INDEX_SUFFIX) {
      assert p[..|p| - 10] == rel + "/" + name[..|name| - 10];
    }
  }

  /** A file name holds no "/", so it holds no "./" either. */
  lemma NoSlashNoDotSlash(name: string)
    requires '/' !in name
    ensures NoDotSlash(name)
  {
    forall i | 0 <= i < |name| - 1
      ensures !(name[i] == '.' && name[i + 1] == '/')
    {
      assert name[i + 1] in name;
    }
  }

  /** The URL of a file at the top of the walk (root "."): its name, with a
      trailing "index.html" cut off, so "index.html" gives the empty path. */
  lemma TopUrlPath(name: string)
    requires '/' !in name
    ensures UrlPath(FileEntry(".", name))
            == if EndsWith(name, INDEX_SUFFIX) then name[..|name| - 10] else name
  {
    JoinUnderDirectory(".", name);
    assert "." + "/" + name == "./" + name;
    NoSlashNoDotSlash(name);
    DropLeadingDotSlash(name);
    RemoveDotSlashIdentity(name);
    UrlPathOfFull(FileEntry(".", name), name);
  }

  /** A character that does not start a "./" is kept and the scan goes on
      after it. */
  lemma RemoveDotSlashCons(c: char, s: string)
    requires !(c == '.' && s != [] && s[0] == '/')
    ensures RemoveDotSlash([c] + s) == [c] + RemoveDotSlash(s)
  {
    if s != [] {
      assert ([c] + s)[1..] == s;
    }
  }

  /** The replacement acts on the two halves of a path separately as long
      as no "./" straddles the point where they meet. */
  lemma {:induction false} RemoveDotSlashAppend(a: string, b: string)
    requires a == [] || b == [] || a[|a| - 1] != '.' || b[0] != '/'
    ensures RemoveDotSlash(a + b) == RemoveDotSlash(a) + RemoveDotSlash(b)
  {
    if a == [] {
      assert a + b == b;
    } else if |a| >= 2 && a[0] == '.' && a[1] == '/' {
      var rest := a[2..];
      assert a == "./" + rest;
      assert a + b == "./" + (rest + b);
      DropLeadingDotSlash(rest + b);
      DropLeadingDotSlash(rest);
      RemoveDotSlashAppend(rest, b);
    } else {
      var rest := a[1..];
      assert a == [a[0]] + rest;
      assert a + b == [a[0]] + (rest + b);
      assert rest != [] ==> (rest + b)[0] == rest[0];
      RemoveDotSlashCons(a[0], rest + b);
      RemoveDotSlashCons(a[0], rest);
      RemoveDotSlashAppend(rest, b);
      AppendAssoc([a[0]], RemoveDotSlash(rest), RemoveDotSlash(b));
    }
  }

  /** The suffix test is on the whole name, not on a final path component
      equal to "index.html": a name such as "myindex.html" loses its last ten
      characters too, and "./blog" with "myindex.html" gives "blog/my". */
  lemma SuffixQuirk(rel: string, stem: string)
    requires rel != [] && rel[|rel| - 1] != '/'
    requires '/' !in stem
    requires NoDotSlash(rel + "/" + stem + INDEX_SUFFIX)
    ensures UrlPath(FileEntry("./" + rel, stem + INDEX_SUFFIX)) == rel + "/" + stem
  {
    var name := stem + INDEX_SUFFIX;
    assert '/' !in INDEX_SUFFIX;
    assert '/' !in name by {
      assert forall k :: 0 <= k < |name| ==> name[k] == (if k < |stem| then stem[k] else INDEX_SUFFIX[k - |stem|]);
    }
    assert rel + "/" + name == rel + "/" + stem + INDEX_SUFFIX;
    SubdirUrlPath(rel, name);
    assert name[|name| - 10..] == INDEX_SUFFIX;
    assert name[..|name| - 10] == stem;
  }

  /** The replacement is not only of the leading "./": in a directory whose
      name ends in "." the dot and the following "/" are removed as well, so
      the file "page.html" in "./v1." gets the URL "v1page.html". */
  lemma ReplaceQuirk(dir: string, name: string)
    requires dir != [] && NoDotSlash(dir)
    requires '/' !in name
    requires !EndsWith(dir + name, INDEX_SUFFIX)
    ensures UrlPath(FileEntry("./" + dir + ".", name)) == dir + name
  {
    var root := "./" + dir + ".";
    JoinUnderDirectory(root, name);
    var rest := "./" + name;
    assert root + "/" + name == "./" + (dir + rest);
    DropLeadingDotSlash(dir + rest);
    RemoveDotSlashAppend(dir, rest);
    RemoveDotSlashIdentity(dir);
    NoSlashNoDotSlash(name);
    DropLeadingDotSlash(name);
    RemoveDotSlashIdentity(name);
    UrlPathOfFull(FileEntry(root, name), dir + name);
  }

  /** Removing "./" only deletes characters. */
  lemma {:induction false} RemoveDotSlashChars(s: string)
    ensures forall c :: c in RemoveDotSlash(s) ==> c in s
  {
    if |s| >= 2 {
      if s[0] == '.' && s[1] == '/' {
        RemoveDotSlashChars(s[2..]);
      } else {
        RemoveDotSlashChars(s[1..]);
      }
    }
  }

  /** A URL path is made of the characters of the root and the file name,
      and of the separator "/". */
  lemma UrlPathChars(e: FileEntry)
    ensures forall c :: c in UrlPath(e) ==> c in e.root || c in e.name || c == '/'
  {
    var joined := JoinPath(e.root, e.name);
    assert forall c :: c in joined ==> c in e.root || c in e.name || c == '/';
    RemoveDotSlashChars(joined);
  }

  /** No root and no file name among the pairs contains `c`. */
  predicate Avoids(entries: seq<FileEntry>, c: char)
  {
    forall k :: 0 <= k < |entries| ==> c !in entries[k].root && c !in entries[k].name
  }

  lemma {:induction false} HtmlUrlsAvoid(entries: seq<FileEntry>, c: char)
    requires c != '/' && Avoids(entries, c)
    ensures forall k :: 0 <= k < |HtmlUrls(entries)| ==> c !in HtmlUrls(entries)[k]
  {
    if entries != [] {
      var n := |entries| - 1;
      HtmlUrlsAvoid(entries[..n], c);
      UrlPathChars(entries[n]);
    }
  }

  lemma {:induction false} WalkEntriesAvoid(walk: seq<WalkStep>, c: char, i: nat)
    requires i <= |walk|
    requires forall s :: 0 <= s < |walk| ==> c !in walk[s].root && forall f :: f in walk[s].files ==> c !in f
    ensures Avoids(WalkEntries(walk[..i]), c)
  {
    if i == 0 {
      assert WalkEntries(walk[..0]) == [];
    } else {
      WalkEntriesAvoid(walk, c, i - 1);
      WalkEntriesSnoc(walk, i - 1);
      var step := StepEntries(walk[i - 1]);
      assert step[..|walk[i - 1].files|] == step;
      assert forall k :: 0 <= k < |step| ==> step[k].root == walk[i - 1].root && step[k].name in walk[i - 1].files;
    }
  }

  /** A character other than "/" that no directory path and no file name of
      the walk contains is in none of the URLs. */
  lemma WalkUrlsAvoid(walk: seq<WalkStep>, c: char)
    requires c != '/'
    requires forall s :: 0 <= s < |walk| ==> c !in walk[s].root && forall f :: f in walk[s].files ==> c !in f
    ensures forall k :: 0 <= k < |HtmlUrls(WalkEntries(walk))| ==> c !in HtmlUrls(WalkEntries(walk))[k]
  {
    WalkEntriesAvoid(walk, c, |walk|);
    assert walk[..|walk|] == walk;
    HtmlUrlsAvoid(WalkEntries(walk), c);
  }
}
