/** File name extensions, as path/filepath and strings compare them (ASCII letters only). */
module FileNames {
  /** Index just after the last occurrence of c, or 0. */
  function AfterLast(s: string, c: char): (k: nat)
    ensures k <= |s|
    ensures k > 0 ==> s[k - 1] == c
    ensures forall i :: k <= i < |s| ==> s[i] != c
  {
    if s == "" then 0
    else if s[|s| - 1] == c then |s|
    else AfterLast(s[..|s| - 1], c)
  }

  /** filepath.Base of a clean path. */
  function Base(path: string): string {
    path[AfterLast(path, '/')..]
  }

  /** filepath.Ext: from the last dot of the last element, or nothing. */
  function Ext(path: string): string {
    var name := Base(path);
    var k := AfterLast(name, '.');
    if k == 0 then "" else name[k - 1..]
  }

  function LowerChar(c: char): char {
    if 'A' <= c <= 'Z' then c - 'A' + 'a' else c
  }

  function Lower(s: string): (r: string)
    ensures |r| == |s|
  {
    seq(|s|, i requires 0 <= i < |s| => LowerChar(s[i]))
  }

  /** Lower case is 32 above upper case, and nothing else changes. */
  lemma LowerMeans(s: string)
    ensures forall i :: 0 <= i < |s| ==>
              Lower(s)[i] as int == s[i] as int + if 65 <= s[i] as int <= 90 then 32 else 0
  {
  }

  predicate HasExt(path: string, ext: string) {
    Lower(Ext(path)) == ext
  }

  /** strings.TrimSuffix(base, ext) */
  function Stem(path: string): string {
    var name := Base(path);
    var ext := Ext(path);
    if |ext| <= |name| then name[..|name| - |ext|] else name
  }

  predicate PlainExt(ext: string) {
    ext != "" && ext[0] == '.' && forall i :: 1 <= i < |ext| ==> ext[i] != '.' && ext[i] != '/'
  }

  lemma LowerKeepsMarks(s: string)
    ensures forall i :: 0 <= i < |s| ==> (Lower(s)[i] == '.' <==> s[i] == '.') && (Lower(s)[i] == '/' <==> s[i] == '/')
  {
  }

  lemma AfterLastIs(s: string, c: char, m: nat)
    requires m < |s| && s[m] == c && forall i :: m < i < |s| ==> s[i] != c
    ensures AfterLast(s, c) == m + 1
  {
    hide AfterLast;
    var k := AfterLast(s, c);
    assert m < k;
    assert k - 1 <= m;
  }

  /** Where a path ends in a dot and then neither dot nor slash, that is its extension. */
  lemma ExtFrom(path: string, m: nat)
    requires m < |path| && path[m] == '.' && forall i :: m < i < |path| ==> path[i] != '.' && path[i] != '/'
    ensures Ext(path) == path[m..]
  {
    hide AfterLast;
    var b := AfterLast(path, '/');
    assert b <= m;
    AfterLastIs(path[b..], '.', m - b);
  }

  /** A path has a plain extension exactly when it ends in it, whatever the case of its letters. */
  lemma ExtIsSuffix(path: string, ext: string)
    requires PlainExt(ext)
    ensures HasExt(path, ext) <==> |path| >= |ext| && Lower(path[|path| - |ext|..]) == ext
  {
    hide Lower;
    if HasExt(path, ext) {
      assert Ext(path) == path[|path| - |ext|..];
    }
    if |path| >= |ext| && Lower(path[|path| - |ext|..]) == ext {
      var m := |path| - |ext|;
      LowerKeepsMarks(path[m..]);
      assert forall i :: m <= i < |path| ==> path[i] == path[m..][i - m];
      ExtFrom(path, m);
    }
  }

  /** The base name is what follows the last slash. */
  lemma BaseIsLast(path: string)
    ensures var n := |path| - |Base(path)|;
            && n >= 0 && path[n..] == Base(path) && (n == 0 || path[n - 1] == '/')
            && forall i :: 0 <= i < |Base(path)| ==> Base(path)[i] != '/'
  {
    var k := AfterLast(path, '/');
    assert forall i :: 0 <= i < |Base(path)| ==> Base(path)[i] == path[k + i];
  }

  /** Stem and extension make up the base name; the extension is its last dot and what follows, or empty
      without a dot. */
  lemma StemAndExt(path: string)
    ensures Stem(path) + Ext(path) == Base(path)
    ensures Ext(path) == "" ==> forall i :: 0 <= i < |Base(path)| ==> Base(path)[i] != '.'
    ensures Ext(path) != "" ==>
              Ext(path)[0] == '.' && forall i :: 1 <= i < |Ext(path)| ==> Ext(path)[i] != '.'
  {
    var name := Base(path);
    var k := AfterLast(name, '.');
    if k > 0 {
      assert name == name[..k - 1] + name[k - 1..];
      assert forall i :: 1 <= i < |Ext(path)| ==> Ext(path)[i] == name[k - 1 + i];
    } else {
      assert name[..|name|] == name;
    }
  }
}
