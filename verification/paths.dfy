/** The part of Node's POSIX `path` module the loader uses: `path.extname`. It scans the
    path from its end, as Node does, and slices the extension out of it. */
module Paths {
  import opened Strings

  /** The end of the last segment of `p[..i]`: `i` without its trailing slashes. */
  function TrimmedEnd(p: string, i: nat): (r: nat)
    requires i <= |p|
    ensures r <= i
    ensures r == 0 || p[r - 1] != '/'
    ensures forall j :: r <= j < i ==> p[j] == '/'
    decreases i
  {
    if i == 0 || p[i - 1] != '/' then i else TrimmedEnd(p, i - 1)
  }

  /** The last index in `[lo, i)` where `p` holds `c`, or `lo - 1` when there is none. */
  function LastBefore(p: string, c: char, lo: nat, i: nat): (r: int)
    requires lo <= i <= |p|
    ensures lo - 1 <= r < i
    ensures r >= lo ==> p[r] == c
    ensures forall j :: r < j < i ==> p[j] != c
    decreases i - lo
  {
    if i == lo then lo - 1
    else if p[i - 1] == c then i - 1
    else LastBefore(p, c, lo, i - 1)
  }

  /** `path.extname(p)`: the last segment (trailing slashes ignored) from its last dot to its
      end; empty when that segment has no dot, only a leading one, or is `..`. A non-empty
      extension is the tail of `p` before its trailing slashes, and it does not start the
      segment; a slash-free name other than `..` with a dot after its first character
      always has one. */
  function ExtName(p: string): (r: string)
    ensures r == "" || (r[0] == '.' && '/' !in r && '.' !in r[1..])
    ensures r != "" ==>
              var e := TrimmedEnd(p, |p|);
              |r| < e && p[e - |r|..e] == r && p[e - |r| - 1] != '/'
    ensures '/' !in p && p != ".." && (exists k :: 0 < k < |p| && p[k] == '.') ==> r != ""
  {
    var end := TrimmedEnd(p, |p|);
    var start := LastBefore(p, '/', 0, end) + 1;
    var dot := LastBefore(p, '.', start, end);
    if dot <= start || (end - start == 2 && p[start] == '.' && p[start + 1] == '.') then ""
    else
      var ext := p[dot..end];
      assert forall k :: 0 <= k < |ext| ==> ext[k] == p[dot + k];
      assert p[end - |ext|..end] == ext;
      ext
  }

  /** In a name without slashes the last segment is the whole name. */
  lemma PlainNameBounds(p: string)
    requires '/' !in p
    ensures TrimmedEnd(p, |p|) == |p|
    ensures LastBefore(p, '/', 0, |p|) == -1
  {
  }

  /** A name without a dot has no extension. */
  lemma ExtNameWithoutDot(p: string)
    requires '.' !in p
    ensures ExtName(p) == ""
  {
  }

  /** A name made of a non-empty stem, a dot and a dot-free suffix has that suffix, dot
      included, as its extension. */
  lemma {:induction false} ExtNameOfStemAndSuffix(stem: string, suffix: string)
    requires |stem| > 0 && '/' !in stem
    requires |suffix| > 0 && '/' !in suffix && '.' !in suffix
    ensures ExtName(stem + "." + suffix) == "." + suffix
  {
    var p := stem + "." + suffix;
    assert '/' !in p;
    PlainNameBounds(p);
    DotBeforeSuffix(stem, suffix);
    SuffixAfterStem(stem, suffix);
  }

  /** The dot that ends the stem is the last one. */
  lemma {:induction false} DotBeforeSuffix(stem: string, suffix: string)
    requires '.' !in suffix
    ensures LastBefore(stem + "." + suffix, '.', 0, |stem + "." + suffix|) == |stem|
  {
    var p := stem + "." + suffix;
    assert p[|stem|] == '.';
    forall j | |stem| < j < |p| ensures p[j] != '.' {
      assert p[j] == suffix[j - |stem| - 1];
      assert suffix[j - |stem| - 1] in suffix;
    }
    var r := LastBefore(p, '.', 0, |p|);
    assert r >= |stem|;
  }

  lemma SuffixAfterStem(stem: string, suffix: string)
    ensures (stem + "." + suffix)[|stem|..|stem + "." + suffix|] == "." + suffix
  {
  }
}
