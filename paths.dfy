/**
 * Tree paths of the node store as sequences of names, their string form
 * ("/" for the root, "/a/b" otherwise) and the document id of a path.
 * The root has the single representation [] (rendered "/").
 */
module Paths {
  import opened Strings
  import PrototypeNode

  /** A path segment: non-empty and free of '/'. */
  type Name = s: string | s != [] && '/' !in s witness "a"

  type Path = seq<Name>

  const Root: Path := []

  /** "/" followed by each name, names separated by "/". */
  function Join(p: Path): string
  {
    if p == [] then "" else "/" + p[0] + Join(p[1..])
  }

  function PathString(p: Path): string
  {
    if p == [] then "/" else Join(p)
  }

  /** The id of the document that holds the node at `p`. */
  function DocId(p: Path): string
  {
    PrototypeNode.ConvertPathToDocumentId(PathString(p))
  }

  predicate IsPrefix(a: Path, b: Path)
  {
    |a| <= |b| && b[..|a|] == a
  }

  lemma {:induction false} JoinCount(p: Path)
    ensures Count(Join(p), '/') == |p|
  {
    if p != [] {
      JoinCount(p[1..]);
      CountAppend("/" + p[0], Join(p[1..]), '/');
      CountAppend("/", p[0], '/');
      assert "/" + p[0] + Join(p[1..]) == ("/" + p[0]) + Join(p[1..]);
    }
  }

  /** A non-root path renders to more than "/". */
  lemma LongPathString(p: Path)
    ensures p != [] ==> |PathString(p)| >= 2
  {
    if p != [] {
      assert |Join(p)| == 1 + |p[0]| + |Join(p[1..])|;
    }
  }

  /** The depth encoded in a path's document id is its number of names. */
  lemma DepthOfPathString(p: Path)
    ensures PrototypeNode.PathDepth(PathString(p)) == |p|
  {
    LongPathString(p);
    if p != [] {
      JoinCount(p);
    }
  }

  /** Where the first name of a joined path ends: the first '/' or the end. */
  function SegmentEnd(t: string): nat
  {
    match IndexOf(t, '/')
    case None => |t|
    case Some(i) => i
  }

  lemma FirstSegment(a: Name, rest: Path)
    ensures SegmentEnd(a + Join(rest)) == |a|
  {
    if rest == [] {
      assert a + Join(rest) == a;
    } else {
      var tail := rest[0] + Join(rest[1..]);
      assert a + Join(rest) == a + ['/'] + tail;
      IndexOfAfterPrefix(a, '/', tail);
    }
  }

  /** Distinct paths join to distinct strings. */
  lemma {:induction false} JoinInjective(p: Path, q: Path)
    requires Join(p) == Join(q)
    ensures p == q
  {
    if p != [] && q != [] {
      var s := Join(p);
      var a, b := p[0], q[0];
      var ra, rb := Join(p[1..]), Join(q[1..]);
      assert s[1..] == a + ra && s[1..] == b + rb;
      FirstSegment(a, p[1..]);
      FirstSegment(b, q[1..]);
      assert |a| == |b|;
      assert a == s[1..][..|a|] == b;
      assert ra == s[1..][|a|..] == rb;
      JoinInjective(p[1..], q[1..]);
      assert p == [a] + p[1..] && q == [b] + q[1..];
    } else {
      LongPathString(p);
      LongPathString(q);
    }
  }

  lemma PathStringInjective(p: Path, q: Path)
    requires PathString(p) == PathString(q)
    ensures p == q
  {
    LongPathString(p);
    LongPathString(q);
    if p != [] && q != [] {
      JoinInjective(p, q);
    }
  }

  /** Each path has its own document. */
  lemma DocIdInjective(p: Path, q: Path)
    requires DocId(p) == DocId(q)
    ensures p == q
  {
    PrototypeNode.DocumentIdInjective(PathString(p), PathString(q));
    PathStringInjective(p, q);
  }

  /** The document id of a path is its number of names, ':' and its string form. */
  lemma DocIdShape(p: Path)
    ensures DocId(p) == NatToString(|p|) + ":" + PathString(p)
  {
    DepthOfPathString(p);
  }
}
