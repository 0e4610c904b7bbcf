/** How the analyzer names a template after its SQL file: the stem is the
    file name without its extension (POSIX `os.path.splitext`), the query
    id is the stem up to its first underscore, and the question is the stem
    with every underscore turned into a space. */
module FileNaming {
  import opened Text

  /** Some character of `s[lo..hi]` is not a dot. */
  predicate HasNonDot(s: string, lo: int, hi: int)
    requires 0 <= lo && hi <= |s|
  {
    exists k :: lo <= k < hi && s[k] != '.'
  }

  /** `os.path.splitext(filename)[0]`: the extension starts at the last dot
      after the last `/`, unless everything between that `/` and the dot is
      a dot too (a hidden file such as `.env` has no extension). */
  function Stem(filename: string): (r: string)
    ensures IsPrefix(r, filename)
    ensures r != filename ==>
      filename[|r|] == '.' && '.' !in filename[|r| + 1..] && '/' !in filename[|r|..]
      && HasNonDot(filename, RFind(filename, '/') + 1, |r|)
  {
    var sep := RFind(filename, '/');
    var dot := RFind(filename, '.');
    if dot > sep && HasNonDot(filename, sep + 1, dot) then filename[..dot] else filename
  }

  /** A file name without a dot is its own stem. */
  lemma StemWithoutDot(filename: string)
    requires '.' !in filename
    ensures Stem(filename) == filename
  {
  }

  /** Appending text without `c` does not move the last `c`. */
  lemma {:induction false} RFindAppend(a: string, t: string, c: char)
    requires c !in t
    ensures RFind(a + t, c) == RFind(a, c)
    decreases |t|
  {
    if t == [] {
      assert a + t == a;
    } else {
      var u := t[..|t| - 1];
      assert (a + t)[..|a + t| - 1] == a + u;
      assert (a + t)[|a + t| - 1] == t[|t| - 1];
      RFindAppend(a, u, c);
    }
  }

  /** In `base.ext`, the last dot is the one added and the last `/` is
      the last `/` of `base`. */
  lemma NamedRFinds(base: string, ext: string)
    requires '.' !in ext && '/' !in ext
    ensures RFind(base + "." + ext, '.') == |base|
    ensures RFind(base + "." + ext, '/') == RFind(base, '/')
  {
    var b := base + ".";
    assert b[|b| - 1] == '.';
    assert RFind(b, '.') == |base|;
    RFindAppend(b, ext, '.');
    RFindAppend(b, ext, '/');
    RFindAppend(base, ".", '/');
  }

  /** `base.ext` keeps `base` as its first characters. */
  lemma NamedPrefix(base: string, ext: string)
    ensures |base| < |base + "." + ext|
    ensures (base + "." + ext)[..|base|] == base
    ensures forall k :: 0 <= k < |base| ==> (base + "." + ext)[k] == base[k]
  {
  }

  /** Splitting off an extension undoes appending it: the stem of
      `base.ext` is `base` whenever `ext` holds no dot or `/` and the
      last path part of `base` is not made of dots alone. */
  lemma StemOfNamed(base: string, ext: string)
    requires '.' !in ext && '/' !in ext
    requires HasNonDot(base, RFind(base, '/') + 1, |base|)
    ensures Stem(base + "." + ext) == base
  {
    var f := base + "." + ext;
    NamedRFinds(base, ext);
    NamedPrefix(base, ext);
    var sb := RFind(base, '/');
    var k :| sb + 1 <= k < |base| && base[k] != '.';
    assert f[k] != '.';
    assert HasNonDot(f, RFind(f, '/') + 1, |base|);
    StemSplit(f, |base|);
  }

  /** The stem ends at the last dot when that dot follows the last `/`
      and the part between them is not all dots. */
  lemma StemSplit(f: string, dot: nat)
    requires dot < |f| && RFind(f, '.') == dot && RFind(f, '/') < dot
    requires HasNonDot(f, RFind(f, '/') + 1, dot)
    ensures Stem(f) == f[..dot]
  {
  }

  /** The query id: the part of the stem before its first underscore, the
      whole stem when it has none. */
  function QueryId(stem: string): (r: string)
    ensures IsPrefix(r, stem)
    ensures '_' !in r
    ensures r != stem ==> stem[|r|] == '_'
  {
    var i := Find(stem, '_');
    if i < 0 then stem else stem[..i]
  }

  /** Prefixing an underscore-free id to any underscore-led rest gives the
      id back. */
  lemma QueryIdOfNamed(id: string, rest: string)
    requires '_' !in id
    ensures QueryId(id + "_" + rest) == id
  {
    var s := id + "_" + rest;
    assert s[|id|] == '_';
    assert forall k :: 0 <= k < |id| ==> s[k] == id[k];
    assert s[..|id|] == id;
  }

  /** The question: the stem with every underscore read as a space. */
  function Question(stem: string): (r: string)
    ensures |r| == |stem| && '_' !in r
    ensures forall i :: 0 <= i < |stem| ==> r[i] == (if stem[i] == '_' then ' ' else stem[i])
  {
    ReplaceChar(stem, '_', ' ')
  }

  /** The two names agree: the question starts with the query id. */
  lemma QuestionStartsWithId(stem: string)
    ensures IsPrefix(QueryId(stem), Question(stem))
  {
    var id := QueryId(stem);
    var q := Question(stem);
    assert forall k :: 0 <= k < |id| ==> stem[k] == id[k] && id[k] != '_';
    assert q[..|id|] == id;
  }
}
