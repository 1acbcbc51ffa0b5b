/** The parts of Python's `posixpath` the pipeline uses: two-argument `join`,
    `basename`, and the stem half of `splitext` applied to a basename. */
module PosixPath {
  import opened Text
  import Wrappers

  const Sep: char := '/'

  /** `os.path.join(a, b)`: an absolute `b` replaces `a`; otherwise a single
      separator is inserted unless `a` is empty or already ends with one. */
  function Join(a: string, b: string): string
  {
    if |b| > 0 && b[0] == Sep then b
    else if |a| == 0 || a[|a| - 1] == Sep then a + b
    else a + [Sep] + b
  }

  /** `os.path.basename(p)`: the text after the last separator. */
  function Basename(p: string): (r: string)
    ensures Sep !in r
    ensures |r| <= |p| && r == p[|p| - |r|..]
  {
    AfterLast(p, Sep)
  }

  /** A relative name free of separators is exactly what `basename` recovers
      from `join(dir, name)`, whatever the directory. */
  lemma BasenameOfJoin(dir: string, name: string)
    requires Sep !in name
    ensures Basename(Join(dir, name)) == name
  {
    if |dir| == 0 {
      assert Join(dir, name) == "" + name;
      AfterLastAppend("", name, Sep);
    } else if dir[|dir| - 1] == Sep {
      assert Join(dir, name) == dir + name;
      AfterLastAppend(dir, name, Sep);
    } else {
      assert Join(dir, name) == (dir + [Sep]) + name;
      AfterLastAppend(dir + [Sep], name, Sep);
    }
  }

  /** Within one directory, distinct separator-free names join to distinct paths. */
  lemma JoinInjective(dir: string, a: string, b: string)
    requires Sep !in a && Sep !in b
    requires Join(dir, a) == Join(dir, b)
    ensures a == b
  {
    BasenameOfJoin(dir, a);
    BasenameOfJoin(dir, b);
  }

  /** Every character of `s` is a dot (vacuously so for the empty string). */
  predicate AllDots(s: string)
  {
    forall k :: 0 <= k < |s| ==> s[k] == '.'
  }

  /** Index of the last `c` in `s`, if any. */
  function LastIndex(s: string, c: char): (r: Wrappers.Option<nat>)
    ensures r.None? ==> c !in s
    ensures r.Some? ==> r.value < |s| && s[r.value] == c && c !in s[r.value + 1..]
  {
    var tail := AfterLast(s, c);
    if |tail| == |s| then Wrappers.None else Wrappers.Some(|s| - |tail| - 1)
  }

  /** `os.path.splitext(name)[0]` for a name without separators: the text
      before the last dot, unless everything before that dot is dots
      (a leading-dot name such as ".bashrc" has no extension). */
  function Stem(name: string): (r: string)
    ensures |r| <= |name| && r == name[..|r|]
  {
    match LastIndex(name, '.')
    case None => name
    case Some(d) => if AllDots(name[..d]) then name else name[..d]
  }

  /** `splitext` undoes appending one extension to a stem that holds a
      non-dot character: the stem comes back. */
  lemma StemOfExtension(stem: string, ext: string)
    requires '.' !in ext
    requires !AllDots(stem)
    ensures Stem(stem + "." + ext) == stem
  {
    var name := stem + "." + ext;
    AfterLastAppend(stem + ".", ext, '.');
    assert AfterLast(stem + ".", '.') == "";
    assert LastIndex(name, '.') == Wrappers.Some(|stem|);
    assert name[..|stem|] == stem;
  }
}
