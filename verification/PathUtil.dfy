/**
 `Path_util::is_parent_path` of libs/opaleye-util/include/opaleye-util/path/Path_util.hpp. The
 function guards its element-by-element loop with the character lengths of the two paths.
 */
module PathUtil {
  import opened DirectoryTree
  import opened HttpDispatch
  import opened Wrappers

  /** A path as written, and the elements its iterator yields. */
  datatype FsPath = FsPath(text: string, elements: Path)

  datatype Verdict =
    | Answer(parent: bool)
    | Throws
    | PastEnd  // the request iterator is dereferenced at its end, which is undefined

  predicate EndsInDir(es: Path) {
    es != [] && Last(es) == "."
  }

  /** The part of the base that the loop compares: a final "." is not compared. */
  function Compared(es: Path): Path {
    if EndsInDir(es) then Parent(es) else es
  }

  /** An iterator over a non-empty text yields at least one element. */
  predicate WellFormed(p: FsPath) {
    p.text == "" <==> p.elements == []
  }

  method IsParentPath(base: FsPath, req: FsPath) returns (r: Verdict)
    requires WellFormed(base) && WellFormed(req)
    ensures r == Throws <==> !IsAbsolute(base.elements) || !IsAbsolute(req.elements)
    ensures r == Answer(true) <==>
              && IsAbsolute(base.elements) && IsAbsolute(req.elements)
              && |base.text| <= |req.text| && Compared(base.elements) <= req.elements
    ensures r == PastEnd <==>
              && IsAbsolute(base.elements) && IsAbsolute(req.elements)
              && |base.text| <= |req.text| && req.elements < Compared(base.elements)
  {
    if base.text == "" || req.text == "" {
      return Throws;
    }
    if !IsAbsolute(base.elements) || !IsAbsolute(req.elements) {
      return Throws;
    }
    if |base.text| > |req.text| {
      return Answer(false);
    }
    var b, q := base.elements, req.elements;
    var endsInDir := EndsInDir(b);
    var i := 0;
    while i < |b|
      invariant 0 <= i <= |Compared(b)| && i <= |q|
      invariant b[..i] == q[..i]
    {
      if endsInDir && i + 1 == |b| {
        assert b[..i] == Compared(b);
        return Answer(true);
      }
      if i == |q| {
        assert Compared(b)[..i] == b[..i] == q;
        return PastEnd;
      }
      if b[i] != q[i] {
        assert Compared(b)[i] == b[i];
        return Answer(false);
      }
      assert b[..i + 1] == b[..i] + [b[i]] && q[..i + 1] == q[..i] + [q[i]];
      i := i + 1;
    }
    assert b[..i] == b;
    return Answer(true);
  }

  // ---- Canonical paths ----

  predicate IsName(e: string) {
    e != "" && '/' !in e
  }

  function Join(names: seq<string>): string {
    if |names| == 0 then ""
    else if |names| == 1 then names[0]
    else Join(names[..|names| - 1]) + "/" + names[|names| - 1]
  }

  /** Elements separated by single slashes; a "." that follows a name is written as a final slash. */
  function Render(es: Path): string
    requires Rooted(es)
  {
    "/" + if |es| >= 3 && EndsInDir(es) then Join(es[1..|es| - 1]) + "/" else Join(es[1..])
  }

  predicate CanonicalElements(es: Path) {
    Rooted(es) && forall i :: 1 <= i < |es| ==> IsName(es[i])
  }

  predicate Canonical(p: FsPath) {
    CanonicalElements(p.elements) && p.text == Render(p.elements)
  }

  /** The length with every element written out. */
  function FullLength(es: Path): nat
    requires Rooted(es)
  {
    1 + |Join(es[1..])|
  }

  lemma FullLengthSnoc(es: Path)
    requires Rooted(es) && |es| >= 2
    ensures Rooted(Parent(es))
    ensures FullLength(es) == FullLength(Parent(es)) + |Last(es)| + (if |es| >= 3 then 1 else 0)
  {
    assert es[1..][..|es| - 2] == Parent(es)[1..];
  }

  /** Each further element adds a character, and beyond the first also a slash. */
  lemma {:induction false} FullLengthGrows(p: Path, q: Path)
    requires CanonicalElements(p) && CanonicalElements(q) && p <= q
    ensures FullLength(q) >= FullLength(p)
    ensures p < q ==> FullLength(q) >= FullLength(p) + (if |p| >= 2 then 2 else 1)
    decreases |q|
  {
    if p != q {
      assert p <= Parent(q);
      FullLengthSnoc(q);
      FullLengthGrows(p, Parent(q));
      assert IsName(Last(q));
    }
  }

  lemma RenderLength(es: Path)
    requires Rooted(es)
    ensures |Render(es)| == FullLength(es) - (if |es| >= 3 && EndsInDir(es) then 1 else 0)
  {
    if |es| >= 3 && EndsInDir(es) {
      FullLengthSnoc(es);
      assert Parent(es)[1..] == es[1..|es| - 1];
    }
  }

  /** The character lengths decide every comparison of elements that could run off the request. */
  lemma LengthGuard(b: Path, q: Path)
    requires CanonicalElements(b) && CanonicalElements(q)
    ensures q < Compared(b) ==> |Render(b)| > |Render(q)|
    ensures EndsInDir(b) && Parent(b) == q ==> |Render(b)| > |Render(q)|
    ensures b <= q ==> |Render(b)| <= |Render(q)|
    ensures EndsInDir(b) && Parent(b) < q ==> |Render(b)| <= |Render(q)|
  {
    RenderLength(b);
    RenderLength(q);
    assert EndsInDir(b) ==> |b| >= 2;
    if EndsInDir(b) {
      FullLengthSnoc(b);
    }
    if q < Compared(b) {
      FullLengthGrows(q, Compared(b));
    } else if b <= q {
      FullLengthGrows(b, q);
    }
    if EndsInDir(b) && Parent(b) < q {
      FullLengthGrows(Parent(b), q);
    }
  }

  /**
   On canonical absolute paths the guard keeps the loop inside the request, and the answer is
   yes exactly when the base is an element prefix of the request or is a directory that
   properly contains it.
   */
  lemma CanonicalParent(base: FsPath, req: FsPath)
    requires Canonical(base) && Canonical(req)
    ensures !(|base.text| <= |req.text| && req.elements < Compared(base.elements))
    ensures |base.text| <= |req.text| && Compared(base.elements) <= req.elements
            <==> || base.elements <= req.elements
                 || (EndsInDir(base.elements) && Parent(base.elements) < req.elements)
  {
    LengthGuard(base.elements, req.elements);
  }

  /** Repeated slashes defeat the guard: "/a/b" against "////" reads past the request. */
  lemma RepeatedSlashes()
    ensures var base, req := FsPath("/a/b", ["/", "a", "b"]), FsPath("////", ["/"]);
            && Canonical(base) && |base.text| <= |req.text|
            && req.elements < Compared(base.elements)
  {
    var es := ["/", "a", "b"];
    assert es[1..] == ["a", "b"] && ["a", "b"][..1] == ["a"];
    assert Render(es) == "/a/b";
  }

  /** What dispatch returns is registered for a parent path of the request, as `is_parent_path` means it. */
  lemma DispatchedIsParent<Cb(!new)>(h: seq<Call<Holder<Cb>>>, q: Path, cb: Cb)
    requires Dispatch(After(h), q) == Returned(Some(cb))
    ensures exists p :: InForce(h, p, cb) && (p <= q || (EndsInDir(p) && Parent(p) < q))
  {
    DispatchSound(h, q, cb);
    if !InForce(h, q, cb) {
      var k :| 1 <= k < |q| && InForce(h, q[..k] + ["."], cb);
      assert Parent(q[..k] + ["."]) == q[..k];
    }
  }
}
