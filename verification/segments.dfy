/** Parsed path segments, as the path parser hands them to the ResultPath merge. */
module Segments {

  /** One parsed segment: the expression's type and value, the operation and the scope.
      The root marker `$` has expression type "root"; `.name` is an "identifier" with
      operation "member" and scope "child". Anything else (an index, a filter, a
      descendant scope) is some other combination of these strings. */
  datatype Segment = Segment(exprType: string, value: string, operation: string, scope: string)

  /** The segment the parser yields for the root marker `$`. */
  const RootSegment: Segment := Segment("root", "$", "", "")

  /** The segment the parser yields for a child member access `.name`. */
  function Member(name: string): Segment {
    Segment("identifier", name, "member", "child")
  }

  predicate IsRoot(s: Segment) {
    s.exprType == "root"
  }

  /** A plain child member access `.name`, the only step a Reference Path may take. */
  predicate IsMemberChild(s: Segment) {
    s.exprType == "identifier" && s.operation == "member" && s.scope == "child"
  }

  /** Every segment is a root marker or a child member access. */
  predicate IsReferencePath(segs: seq<Segment>) {
    forall i | 0 <= i < |segs| :: IsRoot(segs[i]) || IsMemberChild(segs[i])
  }

  /** The last segment is a member access, so the merge assigns the result there. */
  predicate EndsInMember(segs: seq<Segment>) {
    |segs| > 0 && IsMemberChild(segs[|segs| - 1])
  }

  /** The member names of the member-access segments, in order. */
  function Keys(segs: seq<Segment>): (ks: seq<string>)
    ensures |ks| <= |segs|
    ensures EndsInMember(segs) ==> |ks| > 0 && ks[|ks| - 1] == segs[|segs| - 1].value
  {
    if segs == [] then []
    else if IsMemberChild(segs[0]) then [segs[0].value] + Keys(segs[1..])
    else Keys(segs[1..])
  }

  /** The segments after the leading root markers. */
  function SkipRoots(segs: seq<Segment>): (r: seq<Segment>)
    ensures |r| <= |segs|
    ensures r != [] ==> !IsRoot(r[0])
  {
    if segs != [] && IsRoot(segs[0]) then SkipRoots(segs[1..]) else segs
  }

  /** The first segment that is not a root marker is a member access: the walk will read a
      member of its starting value. */
  predicate LeadsWithMember(segs: seq<Segment>) {
    var rest := SkipRoots(segs);
    rest != [] && IsMemberChild(rest[0])
  }

  /** The segments with every root marker removed. */
  function WithoutRoots(segs: seq<Segment>): (r: seq<Segment>)
    ensures Keys(r) == Keys(segs)
    ensures LeadsWithMember(r) <==> LeadsWithMember(segs)
    ensures segs != [] && !IsRoot(segs[|segs| - 1]) ==> r != [] && r[|r| - 1] == segs[|segs| - 1]
  {
    if segs == [] then []
    else if IsRoot(segs[0]) then WithoutRoots(segs[1..])
    else
      var r := [segs[0]] + WithoutRoots(segs[1..]);
      assert r[0] == segs[0] && r[1..] == WithoutRoots(segs[1..]);
      r
  }
}
