/** Paths as they are written in a Release file: names joined by slashes. */
module Paths {
  import opened Filesystem

  predicate NoSlash(name: string) {
    '/' !in name
  }

  predicate NoSlashes(p: Path) {
    forall i :: 0 <= i < |p| ==> NoSlash(p[i])
  }

  function Render(p: Path): string {
    if p == [] then ""
    else if |p| == 1 then p[0]
    else p[0] + "/" + Render(p[1..])
  }

  /** A rendered path ends with its first name, or goes on with a slash. */
  lemma FirstName(p: Path)
    requires p != []
    ensures p[0] <= Render(p)
    ensures |p| == 1 ==> |Render(p)| == |p[0]|
    ensures |p| > 1 ==> |Render(p)| > |p[0]| && Render(p)[|p[0]|] == '/' && Render(p)[|p[0]| + 1..] == Render(p[1..])
  {
  }

  lemma FirstNameNotShorter(p: Path, q: Path)
    requires p != [] && q != [] && NoSlashes(q) && Render(p) == Render(q)
    ensures |p[0]| >= |q[0]|
  {
    FirstName(p);
    FirstName(q);
    if |p[0]| < |q[0]| {
      assert false;
    }
  }

  /** Names without slashes can be read back from the rendered path. */
  lemma {:induction false} RenderInjective(p: Path, q: Path)
    requires p != [] && q != [] && NoSlashes(p) && NoSlashes(q)
    ensures Render(p) == Render(q) <==> p == q
  {
    if Render(p) == Render(q) {
      FirstNameNotShorter(p, q);
      FirstNameNotShorter(q, p);
      FirstName(p);
      FirstName(q);
      assert p[0] == Render(p)[..|p[0]|] == q[0];
      if |p| > 1 && |q| > 1 {
        RenderInjective(p[1..], q[1..]);
        assert p == [p[0]] + p[1..] && q == [q[0]] + q[1..];
      }
    }
  }
}
