/** What the ResultPath walk promises, stated through `Lookup` rather than through the walk
    itself: where the result lands, what is created on the way, what is left alone, and
    exactly when the walk fails. */
module MergeProperties {
  import opened Results
  import opened Json
  import opened Segments
  import opened Filter

  /** A lookup hit that the walk cannot descend through: a value that is not an object. */
  predicate Obstructs(o: Option<JSON>) {
    o.Some? && !o.value.JObj?
  }

  /** No proper, non-empty prefix of `keys` leads to a non-object value in `v`. */
  ghost predicate Unobstructed(v: JSON, keys: seq<string>) {
    forall j | 0 < j < |keys| :: !Obstructs(Lookup(v, keys[..j]))
  }

  /** Unobstructed, one member at a time. */
  lemma UnobstructedCons(v: JSON, k: string, ks: seq<string>)
    requires v.JObj? && ks != []
    ensures Unobstructed(v, [k] + ks)
        <==> (k !in v.fields || (v.fields[k].JObj? && Unobstructed(v.fields[k], ks)))
  {
    var keys := [k] + ks;
    forall j | 0 < j < |keys|
      ensures Lookup(v, keys[..j]) == if k in v.fields then Lookup(v.fields[k], ks[..j - 1]) else None
    {
      assert keys[..j] == [k] + ks[..j - 1];
      LookupCons(v, k, ks[..j - 1]);
    }
    assert keys[..1] == [k];
    if k in v.fields && v.fields[k].JObj? && !Unobstructed(v.fields[k], ks) {
      var j :| 0 < j < |ks| && Obstructs(Lookup(v.fields[k], ks[..j]));
      assert Obstructs(Lookup(v, keys[..j + 1]));
    }
  }

  /** Nothing in the empty object obstructs a walk. */
  lemma UnobstructedInEmpty(ks: seq<string>)
    ensures Unobstructed(Empty, ks)
  {
    forall j | 0 < j < |ks|
      ensures !Obstructs(Lookup(Empty, ks[..j]))
    {
      LookupInEmpty(ks[..j]);
    }
  }

  /** On success, looking up the path's member names in the merged value reaches `result`,
      and anything below it: the last member is overwritten whatever it held before. */
  lemma {:induction false} MergePlacesResult(target: JSON, segs: seq<Segment>, result: JSON, below: seq<string>)
    requires target.JObj? && IsReferencePath(segs) && EndsInMember(segs)
    requires Merge(target, segs, result).Ok?
    ensures Lookup(Merge(target, segs, result).value, Keys(segs) + below) == Lookup(result, below)
    decreases |segs|
  {
    var rest := segs[1..];
    assert IsReferencePath(rest) by {
      forall i | 0 <= i < |rest| ensures IsRoot(rest[i]) || IsMemberChild(rest[i]) {
        assert rest[i] == segs[i + 1];
      }
    }
    if IsRoot(segs[0]) {
      MergePlacesResult(target, rest, result, below);
    } else {
      var k := segs[0].value;
      var m := Merge(target, segs, result).value;
      if |segs| == 1 {
        assert Keys(segs) == [k];
        LookupCons(m, k, below);
      } else {
        var child := if k in target.fields then target.fields[k] else Empty;
        MergePlacesResult(child, rest, result, below);
        assert Keys(segs) + below == [k] + (Keys(rest) + below);
        LookupCons(m, k, Keys(rest) + below);
      }
    }
  }

  /** On success, every member named on the way to the last one holds an object in the
      merged value: existing objects are kept, missing members become objects. */
  lemma {:induction false} MergeBuildsObjectSpine(target: JSON, segs: seq<Segment>, result: JSON, j: nat)
    requires target.JObj? && IsReferencePath(segs) && EndsInMember(segs)
    requires Merge(target, segs, result).Ok?
    requires j < |Keys(segs)|
    ensures Lookup(Merge(target, segs, result).value, Keys(segs)[..j]).Some?
    ensures Lookup(Merge(target, segs, result).value, Keys(segs)[..j]).value.JObj?
    decreases |segs|
  {
    var rest := segs[1..];
    assert IsReferencePath(rest) by {
      forall i | 0 <= i < |rest| ensures IsRoot(rest[i]) || IsMemberChild(rest[i]) {
        assert rest[i] == segs[i + 1];
      }
    }
    if IsRoot(segs[0]) {
      MergeBuildsObjectSpine(target, rest, result, j);
    } else if j > 0 {
      var k := segs[0].value;
      var m := Merge(target, segs, result).value;
      var child := if k in target.fields then target.fields[k] else Empty;
      assert |segs| > 1;
      MergeBuildsObjectSpine(child, rest, result, j - 1);
      assert Keys(segs)[..j] == [k] + Keys(rest)[..j - 1];
      LookupCons(m, k, Keys(rest)[..j - 1]);
    }
  }

  /** On success, a chain of member names that is neither a prefix of the path nor extends
      it looks up the same value before and after the merge: nothing off the path changes,
      at any level. */
  lemma {:induction false} MergeLeavesOtherPathsAlone(target: JSON, segs: seq<Segment>, result: JSON, p: seq<string>)
    requires target.JObj? && IsReferencePath(segs) && EndsInMember(segs)
    requires Merge(target, segs, result).Ok?
    requires !(p <= Keys(segs)) && !(Keys(segs) <= p)
    ensures Lookup(Merge(target, segs, result).value, p) == Lookup(target, p)
    decreases |segs|
  {
    var rest := segs[1..];
    assert IsReferencePath(rest) by {
      forall i | 0 <= i < |rest| ensures IsRoot(rest[i]) || IsMemberChild(rest[i]) {
        assert rest[i] == segs[i + 1];
      }
    }
    if IsRoot(segs[0]) {
      MergeLeavesOtherPathsAlone(target, rest, result, p);
    } else {
      var k := segs[0].value;
      var m := Merge(target, segs, result).value;
      assert p != [];
      LookupCons(m, p[0], p[1..]);
      LookupCons(target, p[0], p[1..]);
      assert p == [p[0]] + p[1..];
      if p[0] == k {
        assert |segs| > 1;
        var child := if k in target.fields then target.fields[k] else Empty;
        assert Keys(segs) == [k] + Keys(rest);
        assert !(p[1..] <= Keys(rest)) && !(Keys(rest) <= p[1..]);
        MergeLeavesOtherPathsAlone(child, rest, result, p[1..]);
        if k !in target.fields {
          LookupInEmpty(p[1..]);
        }
      }
    }
  }

  /** The walk succeeds exactly when no member named on the way to the last one already holds
      null, a primitive or an array. */
  lemma {:induction false} MergeSucceedsIffUnobstructed(target: JSON, segs: seq<Segment>, result: JSON)
    requires target.JObj? && IsReferencePath(segs) && EndsInMember(segs)
    ensures Merge(target, segs, result).Ok? <==> Unobstructed(target, Keys(segs))
    decreases |segs|
  {
    var rest := segs[1..];
    assert IsReferencePath(rest) by {
      forall i | 0 <= i < |rest| ensures IsRoot(rest[i]) || IsMemberChild(rest[i]) {
        assert rest[i] == segs[i + 1];
      }
    }
    if IsRoot(segs[0]) {
      MergeSucceedsIffUnobstructed(target, rest, result);
    } else {
      var k := segs[0].value;
      if |segs| > 1 {
        assert Keys(segs) == [k] + Keys(rest);
        UnobstructedCons(target, k, Keys(rest));
        if k in target.fields && target.fields[k].JObj? {
          MergeSucceedsIffUnobstructed(target.fields[k], rest, result);
        } else if k !in target.fields {
          MergeSucceedsIffUnobstructed(Empty, rest, result);
          UnobstructedInEmpty(Keys(rest));
        }
      } else {
        assert Keys(segs) == [k];
      }
    }
  }

  /** Merging a second result along the same path gives what merging only the second one
      gives: the earlier value at the last member is simply overwritten. */
  lemma {:induction false} MergeOverwrites(target: JSON, segs: seq<Segment>, first: JSON, second: JSON)
    requires LeadsWithMember(segs) ==> target.JObj?
    requires Merge(target, segs, first).Ok?
    ensures Merge(Merge(target, segs, first).value, segs, second) == Merge(target, segs, second)
    decreases |segs|, 1
  {
    if segs != [] && IsRoot(segs[0]) {
      MergeOverwrites(target, segs[1..], first, second);
    } else if segs != [] && IsMemberChild(segs[0]) {
      if |segs| == 1 {
        OverwriteLastMember(target, segs, first, second);
      } else {
        OverwriteThroughMember(target, segs, first, second);
      }
    }
  }

  /** MergeOverwrites when the path is a single member access. */
  lemma OverwriteLastMember(target: JSON, segs: seq<Segment>, first: JSON, second: JSON)
    requires |segs| == 1 && IsMemberChild(segs[0]) && target.JObj?
    ensures Merge(Merge(target, segs, first).value, segs, second) == Merge(target, segs, second)
  {
    var k := segs[0].value;
    assert target.fields[k := first][k := second] == target.fields[k := second];
  }

  /** MergeOverwrites when the path starts with an intermediate member access. */
  lemma {:induction false} OverwriteThroughMember(target: JSON, segs: seq<Segment>, first: JSON, second: JSON)
    requires |segs| > 1 && IsMemberChild(segs[0]) && target.JObj?
    requires Merge(target, segs, first).Ok?
    ensures Merge(Merge(target, segs, first).value, segs, second) == Merge(target, segs, second)
    decreases |segs|, 0
  {
    var k := segs[0].value;
    var rest := segs[1..];
    var child := if k in target.fields then target.fields[k] else Empty;
    var inner := Merge(child, rest, first).value;
    var m := Merge(target, segs, first).value;
    assert m == JObj(target.fields[k := inner]);
    MergeOverwrites(child, rest, first, second);
    match Merge(child, rest, second)
    case Ok(u) =>
      assert Merge(m, segs, second) == Ok(JObj(m.fields[k := u]));
      assert m.fields[k := u] == target.fields[k := u];
    case Err(e) =>
      assert Merge(m, segs, second) == Err(e);
  }

  /** Merging the same result twice is merging it once. */
  lemma MergeIsIdempotent(target: JSON, segs: seq<Segment>, result: JSON)
    requires LeadsWithMember(segs) ==> target.JObj?
    requires Merge(target, segs, result).Ok?
    ensures Merge(Merge(target, segs, result).value, segs, result) == Merge(target, segs, result)
  {
    MergeOverwrites(target, segs, result, result);
  }

  /** A walk whose first step after the root markers is not a member access never touches
      its target: it either fails or hands the target back unchanged, object or not. */
  lemma {:induction false} MergeWithoutMemberReadKeepsTarget(target: JSON, segs: seq<Segment>, result: JSON)
    requires !LeadsWithMember(segs)
    requires Merge(target, segs, result).Ok?
    ensures Merge(target, segs, result).value == target
    decreases |segs|
  {
    if segs != [] && IsRoot(segs[0]) {
      MergeWithoutMemberReadKeepsTarget(target, segs[1..], result);
    }
  }

  /** A segment that is neither a root marker nor a child member access (an array index, say)
      anywhere in the path makes the walk fail. */
  lemma {:induction false} NonReferenceSegmentFails(target: JSON, segs: seq<Segment>, result: JSON, i: nat)
    requires LeadsWithMember(segs) ==> target.JObj?
    requires i < |segs| && !IsRoot(segs[i]) && !IsMemberChild(segs[i])
    ensures Merge(target, segs, result) == Err(ResultPathMatchFailure)
    decreases |segs|
  {
    if i > 0 {
      if IsRoot(segs[0]) {
        NonReferenceSegmentFails(target, segs[1..], result, i - 1);
      } else if IsMemberChild(segs[0]) {
        var k := segs[0].value;
        if !(k in target.fields && !target.fields[k].JObj?) {
          var child := if k in target.fields then target.fields[k] else Empty;
          NonReferenceSegmentFails(child, segs[1..], result, i - 1);
        }
      }
    }
  }

  /** Root markers anywhere in the path do not move the walk, as long as the path does not
      end in one: the walk over the path equals the walk over its member segments alone. */
  lemma {:induction false} RootSegmentsAreSkipped(target: JSON, segs: seq<Segment>, result: JSON)
    requires LeadsWithMember(segs) ==> target.JObj?
    requires segs == [] || !IsRoot(segs[|segs| - 1])
    ensures Merge(target, segs, result) == Merge(target, WithoutRoots(segs), result)
    decreases |segs|
  {
    if segs != [] {
      var rest := segs[1..];
      if IsRoot(segs[0]) {
        RootSegmentsAreSkipped(target, rest, result);
      } else if IsMemberChild(segs[0]) && |segs| > 1 {
        MemberStepSkipsRoots(target, segs, result);
      }
    }
  }

  /** The member-access step of RootSegmentsAreSkipped. */
  lemma {:induction false} MemberStepSkipsRoots(target: JSON, segs: seq<Segment>, result: JSON)
    requires |segs| > 1 && IsMemberChild(segs[0]) && !IsRoot(segs[|segs| - 1])
    requires target.JObj?
    ensures Merge(target, segs, result) == Merge(target, WithoutRoots(segs), result)
    decreases |segs|, 0
  {
    var rest := segs[1..];
    var k := segs[0].value;
    assert rest[|rest| - 1] == segs[|segs| - 1];
    var w := WithoutRoots(segs);
    assert !IsRoot(segs[0]);
    assert w == [segs[0]] + WithoutRoots(rest);
    assert WithoutRoots(rest) != [];
    assert w[0] == segs[0] && |w| > 1 && w[1..] == WithoutRoots(rest);
    if !(k in target.fields && !target.fields[k].JObj?) {
      var child := if k in target.fields then target.fields[k] else Empty;
      RootSegmentsAreSkipped(child, rest, result);
    }
  }
}
