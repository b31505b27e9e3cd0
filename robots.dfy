/** create_robots_txt: an allow-all group (RFC 9309, section 2.2.1 for
    User-agent, section 2.2.2 for Allow) and a Sitemap line, one of the other
    records of section 2.2.4, pointing at the sitemap index. */
module Robots {
  import opened Seqs
  import opened Sitemaps

  /** The fixed name of the robots file. */
  const ROBOTS_FILE_NAME: string := "robots.txt"

  /** Position of the first `c` in `s`, or |s| when there is none. */
  function IndexOf(s: string, c: char): (i: nat)
    ensures i <= |s| && c !in s[..i]
    ensures i < |s| ==> s[i] == c
  {
    if s == [] || s[0] == c then 0
    else
      var i := 1 + IndexOf(s[1..], c);
      assert s[..i] == [s[0]] + s[1..][..i - 1];
      i
  }

  /** Python's `s.split('\n')`: the lines of `s`, the last one after the
      final line feed included (empty when `s` ends with one). */
  function Lines(s: string): seq<string>
    decreases |s|
  {
    var i := IndexOf(s, '\n');
    if i == |s| then [s] else [s[..i]] + Lines(s[i + 1..])
  }

  lemma LinesOfLine(a: string)
    requires '\n' !in a
    ensures Lines(a) == [a]
  {
    assert IndexOf(a, '\n') == |a|;
  }

  lemma LinesCons(a: string, b: string)
    requires '\n' !in a
    ensures Lines(a + "\n" + b) == [a] + Lines(b)
  {
    var s := a + "\n" + b;
    var i := IndexOf(s, '\n');
    assert s[|a|] == '\n';
    assert s[..|a|] == a;
    assert s[|a| + 1..] == b;
  }

  /** The robots.txt text create_robots_txt writes. */
  function RobotsTxt(domain: string): string
  {
    var content := "User-agent: *\nAllow: /\n";
    content + "\nSitemap: " + AbsoluteUrl(domain, INDEX_FILE_NAME)
  }

  lemma RobotsTxtParts(domain: string)
    ensures RobotsTxt(domain)
            == "User-agent: *" + "\n" + ("Allow: /" + "\n" + ("" + "\n" + ("Sitemap: " + AbsoluteUrl(domain, INDEX_FILE_NAME))))
  {
    var l0, l1, url := "User-agent: *", "Allow: /", AbsoluteUrl(domain, INDEX_FILE_NAME);
    var l3 := "Sitemap: " + url;
    var group := "User-agent: *\nAllow: /\n";
    assert group == (l0 + "\n") + (l1 + "\n");
    assert "\nSitemap: " == "\n" + "Sitemap: ";
    AppendAssoc(group, "\nSitemap: ", url);
    AppendAssoc("\n", "Sitemap: ", url);
    AppendAssoc(l0 + "\n", l1 + "\n", "\n" + l3);
    AppendAssoc(l1, "\n", "\n" + l3);
    AppendAssoc(l0, "\n", l1 + "\n" + ("\n" + l3));
    assert "" + "\n" + l3 == "\n" + l3;
  }

  lemma SitemapLineHasNoBreak(domain: string)
    requires '\n' !in domain
    ensures '\n' !in "Sitemap: " + AbsoluteUrl(domain, INDEX_FILE_NAME)
  {
    var a, b := "Sitemap: https://", "/" + INDEX_FILE_NAME;
    var line := a + domain + b;
    assert "Sitemap: " + AbsoluteUrl(domain, INDEX_FILE_NAME) == line;
    assert '\n' !in a && '\n' !in b;
    forall i | 0 <= i < |line|
      ensures line[i] != '\n'
    {
      if i < |a| {
        assert line[i] == a[i];
      } else if i < |a| + |domain| {
        assert line[i] == domain[i - |a|];
      } else {
        assert line[i] == b[i - |a| - |domain|];
      }
    }
  }

  lemma FourLines(a: string, b: string, c: string, d: string)
    requires '\n' !in a && '\n' !in b && '\n' !in c && '\n' !in d
    ensures Lines(a + "\n" + (b + "\n" + (c + "\n" + d))) == [a, b, c, d]
  {
    LinesOfLine(d);
    LinesCons(c, d);
    LinesCons(b, c + "\n" + d);
    LinesCons(a, b + "\n" + (c + "\n" + d));
  }

  /** The text has exactly four lines: the allow-all group for every user
      agent, an empty line, and the Sitemap record naming the absolute URL
      of the index file sitemap.xml. */
  lemma RobotsLines(domain: string)
    requires '\n' !in domain
    ensures Lines(RobotsTxt(domain))
            == ["User-agent: *", "Allow: /", "", "Sitemap: " + AbsoluteUrl(domain, INDEX_FILE_NAME)]
  {
    RobotsTxtParts(domain);
    SitemapLineHasNoBreak(domain);
    FourLines("User-agent: *", "Allow: /", "", "Sitemap: " + AbsoluteUrl(domain, INDEX_FILE_NAME));
  }
}
