/** Image identifiers, the file names and paths the server derives from them,
    and the order in which the server lists its image directory. */
module Paths {

  /** The stem shared by an image's original file, its resized file and its
      cached embedding file (a random UUID in the server). */
  type Id = string

  type Path = string

  const OriginalDir: string := "static/original/"
  const ImageExt: string := ".jpg"

  /** Name of an image file in either image directory. */
  function FileName(id: Id): string
  {
    id + ImageExt
  }

  /** Path of the full-resolution copy of an image: the string returned by
      `save_image` and, once normalised by `pathlib`, the one `get_features`
      builds from a feature file's stem. */
  function OriginalPath(id: Id): (p: Path)
    ensures |p| == |OriginalDir| + |id| + |ImageExt|
    ensures p[..|OriginalDir|] == OriginalDir
    ensures p[|p| - |ImageExt|..] == ImageExt
  {
    OriginalDir + FileName(id)
  }

  /** The stem of an original-image path: the identifier it was built from. */
  function StemOf(p: Path): Id
  {
    if |p| >= |OriginalDir| + |ImageExt| then p[|OriginalDir|..|p| - |ImageExt|] else ""
  }

  /** Every original path gives back the identifier it was built from. */
  lemma StemOfOriginalPath(id: Id)
    ensures StemOf(OriginalPath(id)) == id
  {
    var p := OriginalPath(id);
    assert p == OriginalDir + (id + ImageExt);
    assert p[|OriginalDir|..|p| - |ImageExt|] == id;
  }

  /** Distinct images never share an original path. */
  lemma OriginalPathInjective(a: Id, b: Id)
    ensures OriginalPath(a) == OriginalPath(b) <==> a == b
  {
    if OriginalPath(a) == OriginalPath(b) {
      StemOfOriginalPath(a);
      StemOfOriginalPath(b);
    }
  }

  /** Code-point lexicographic order on strings, the order Python's `sorted`
      puts file names in: `a` comes no later than `b`. */
  predicate Below(a: string, b: string)
    decreases |a|
  {
    a == [] || (b != [] && (a[0] < b[0] || (a[0] == b[0] && Below(a[1..], b[1..]))))
  }

  /** Two images in the order `sorted` lists the resized directory: by file
      name, so `"a-b.jpg"` comes before `"a.jpg"` although `"a"` is a prefix
      of `"a-b"`. */
  predicate NameBelow(a: Id, b: Id)
  {
    Below(FileName(a), FileName(b))
  }

  /** The images of `s` are listed in directory order. */
  predicate InNameOrder(s: seq<Id>)
  {
    forall a, b :: 0 <= a < b < |s| ==> NameBelow(s[a], s[b])
  }

  /** Appending an image that no listed image comes after keeps a listing
      in directory order. */
  lemma AppendInOrder(s: seq<Id>, x: Id)
    requires InNameOrder(s) && forall y :: y in s ==> NameBelow(y, x)
    ensures InNameOrder(s + [x])
  {
    forall a, b | 0 <= a < b < |s| + 1 ensures NameBelow((s + [x])[a], (s + [x])[b]) {
      if b == |s| {
        assert s[a] in s;
      }
    }
  }

  lemma {:induction false} BelowTotal(a: string, b: string)
    ensures Below(a, b) || Below(b, a)
    decreases |a|
  {
    if a != [] && b != [] && a[0] == b[0] {
      BelowTotal(a[1..], b[1..]);
    }
  }

  lemma {:induction false} BelowTransitive(a: string, b: string, c: string)
    requires Below(a, b) && Below(b, c)
    ensures Below(a, c)
    decreases |a|
  {
    if a != [] && a[0] == b[0] && b[0] == c[0] {
      BelowTransitive(a[1..], b[1..], c[1..]);
    }
  }

  lemma {:induction false} BelowAntisymmetric(a: string, b: string)
    requires Below(a, b) && Below(b, a)
    ensures a == b
    decreases |a|
  {
    if a != [] {
      BelowAntisymmetric(a[1..], b[1..]);
      assert a == [a[0]] + a[1..] && b == [b[0]] + b[1..];
    }
  }

  /** Every non-empty set of images has a first one in directory order, so
      the sorted walk over a directory is well defined. */
  lemma {:induction false} FirstInOrder(s: set<Id>) returns (m: Id)
    requires s != {}
    ensures m in s
    ensures forall o :: o in s ==> NameBelow(m, o)
    decreases |s|
  {
    var x :| x in s;
    if s == {x} {
      m := x;
      BelowTotal(FileName(x), FileName(x));
    } else {
      var rest := FirstInOrder(s - {x});
      BelowTotal(FileName(x), FileName(rest));
      if NameBelow(x, rest) {
        m := x;
        forall o | o in s ensures NameBelow(m, o) {
          if o != x {
            assert o in s - {x};
            BelowTransitive(FileName(x), FileName(rest), FileName(o));
          } else {
            BelowTotal(FileName(x), FileName(x));
          }
        }
      } else {
        m := rest;
      }
    }
  }

  /** The first image in directory order is unique, so the sorted walk
      visits the images in one order only. */
  lemma FirstIsUnique(s: set<Id>, m1: Id, m2: Id)
    requires m1 in s && forall o :: o in s ==> NameBelow(m1, o)
    requires m2 in s && forall o :: o in s ==> NameBelow(m2, o)
    ensures m1 == m2
  {
    assert NameBelow(m1, m2) && NameBelow(m2, m1);
    BelowAntisymmetric(FileName(m1), FileName(m2));
    assert m1 == FileName(m1)[..|m1|] && m2 == FileName(m2)[..|m2|];
  }
}
