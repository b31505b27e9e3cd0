/** Domain resolution: the publishing host name read from the CNAME file. */
module Domain {
  import opened Results

  /** What reading the CNAME file gives: its text, FileNotFoundError, or any
      other failure (permission denied, a directory, undecodable bytes). */
  datatype CnameRead = Read(text: string) | NotFound | ReadFailed

  const FALLBACK_DOMAIN: string := "example.com"

  /** The characters below U+0080 that Python's `str.strip()` removes:
      space, tab, line feed, vertical tab, form feed, carriage return and the
      four separators U+001C to U+001F. */
  predicate IsSpace(c: char)
  {
    c == ' ' || ('\t' <= c <= '\r') || ('\U{1C}' <= c <= '\U{1F}')
  }

  predicate AllSpace(s: string)
  {
    forall k :: 0 <= k < |s| ==> IsSpace(s[k])
  }

  /** Number of whitespace characters at the start of `s`. */
  function LeadingSpaces(s: string): (n: nat)
    ensures n <= |s|
    ensures forall k :: 0 <= k < n ==> IsSpace(s[k])
    ensures n < |s| ==> !IsSpace(s[n])
  {
    if s == [] || !IsSpace(s[0]) then 0 else 1 + LeadingSpaces(s[1..])
  }

  /** Number of whitespace characters at the end of `s`. */
  function TrailingSpaces(s: string): (n: nat)
    ensures n <= |s|
    ensures forall k :: |s| - n <= k < |s| ==> IsSpace(s[k])
    ensures n < |s| ==> !IsSpace(s[|s| - 1 - n])
  {
    if s == [] || !IsSpace(s[|s| - 1]) then 0 else 1 + TrailingSpaces(s[..|s| - 1])
  }

  /** Python's `s.strip()` over the whitespace of IsSpace: the result is a
      contiguous piece of `s`, everything cut off on either side is
      whitespace, and the result neither starts nor ends with whitespace. */
  function Strip(s: string): (r: string)
    ensures r == [] || (!IsSpace(r[0]) && !IsSpace(r[|r| - 1]))
    ensures exists lo :: StrippedAt(s, lo, r)
  {
    var lo, hi := LeadingSpaces(s), |s| - TrailingSpaces(s);
    if hi <= lo then
      assert s[lo..lo] == [];
      assert StrippedAt(s, lo, []);
      []
    else
      var r := s[lo..hi];
      assert r[0] == s[lo] && r[|r| - 1] == s[hi - 1];
      assert s[lo..lo + |r|] == r;
      assert StrippedAt(s, lo, r);
      r
  }

  /** `r` is the piece of `s` that starts at `lo`, and everything before and
      after it is whitespace. */
  predicate StrippedAt(s: string, lo: int, r: string)
  {
    0 <= lo <= |s| - |r| && s[lo..lo + |r|] == r
    && (forall k :: 0 <= k < lo ==> IsSpace(s[k]))
    && (forall k :: lo + |r| <= k < |s| ==> IsSpace(s[k]))
  }

  /** Stripping leaves a text as it is exactly when the text is empty or
      neither starts nor ends with whitespace. */
  lemma StripFixpoint(s: string)
    ensures Strip(s) == s <==> s == [] || (!IsSpace(s[0]) && !IsSpace(s[|s| - 1]))
  {
    if s != [] && !IsSpace(s[0]) && !IsSpace(s[|s| - 1]) {
      assert LeadingSpaces(s) == 0 && TrailingSpaces(s) == 0;
      assert s[0..|s|] == s;
    }
  }

  /** Stripping twice is stripping once. */
  lemma StripIdempotent(s: string)
    ensures Strip(Strip(s)) == Strip(s)
  {
    StripFixpoint(Strip(s));
  }

  /** Strip's contract has one answer: a piece of `s` that only whitespace
      surrounds and that neither starts nor ends with whitespace is `Strip(s)`. */
  lemma StripUnique(s: string, lo: int, r: string)
    requires StrippedAt(s, lo, r)
    requires r == [] || (!IsSpace(r[0]) && !IsSpace(r[|r| - 1]))
    ensures r == Strip(s)
  {
    var t := Strip(s);
    var lo' :| StrippedAt(s, lo', t);
    if r != [] && t != [] {
      assert s[lo] == r[0] && s[lo + |r| - 1] == r[|r| - 1];
      assert s[lo'] == t[0] && s[lo' + |t| - 1] == t[|t| - 1];
      assert lo == lo' && lo + |r| == lo' + |t|;
    }
  }

  /** get_domain_from_cname: the stripped file contents; the fallback domain
      when the file does not exist; None when any other read error escapes
      and ends the run. */
  function DomainFromCname(f: CnameRead): (r: Option<string>)
    ensures f.Read? ==> r.Some? && exists lo :: StrippedAt(f.text, lo, r.value)
    ensures f.Read? ==> r.Some? && (r.value == [] || (!IsSpace(r.value[0]) && !IsSpace(r.value[|r.value| - 1])))
    ensures f.Read? && !AllSpace(f.text) ==> r.Some? && r.value != []
    ensures f.NotFound? ==> r == Some(FALLBACK_DOMAIN)
    ensures r.None? <==> f.ReadFailed?
  {
    match f
    case Read(text) =>
      var d := Strip(text);
      assert !AllSpace(text) ==> d != [] by {
        if d == [] {
          var lo :| StrippedAt(text, lo, d);
        }
      }
      Some(d)
    case NotFound => Some(FALLBACK_DOMAIN)
    case ReadFailed => None
  }
}
