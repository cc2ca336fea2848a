/** One scan of the command collector: what the marker search finds and what is kept back. */
module CollectorProofs {
  import opened Bytes
  import opened MarkerText
  import opened CollectorSpec

  // ---- the search finds the first result ----

  /** No occurrence before `r` reaches into the one at `r`. */
  predicate Clear(data: seq<Byte>, m: seq<Byte>, r: int) {
    forall i :: 0 <= i < r && OccursAt(data, m, i) ==> i + |m| <= r
  }

  lemma SpacedIsClear(data: seq<Byte>, m: seq<Byte>, r: int)
    requires OccursAt(data, m, r) && Spaced(data[..r + |m|], m)
    ensures Clear(data, m, r)
  {
    forall i | 0 <= i < r && OccursAt(data, m, i) ensures i + |m| <= r {
      if r < i + |m| { OverlapIsNotSpaced(data, m, i, r); }
    }
  }

  /** Skipping whole markers then skips no result. */
  lemma {:induction false} FirstResultIsLeast(data: seq<Byte>, m: seq<Byte>, start: nat, r: int)
    requires m != [] && start <= r && ResultAt(data, m, r) && Clear(data, m, r)
    requires forall i :: start <= i < r ==> !ResultAt(data, m, i)
    ensures FirstResult(data, m, start) == r
    decreases |data| - start
  {
    hide Find, FirstResult, CarriesStatus, OccursAt;
    FindIsLeftmost(data, m, start);
    var i := Find(data, m, start);
    assert OccursAt(data, m, r);
    FirstResultSkips(data, m, start);
    if i < r {
      assert !ResultAt(data, m, i);
      FirstResultIsLeast(data, m, i + |m|, r);
    }
  }

  lemma FirstResultSkips(data: seq<Byte>, m: seq<Byte>, start: nat)
    requires m != []
    ensures var i := Find(data, m, start);
      i >= 0 ==>
        FirstResult(data, m, start) == (if CarriesStatus(data[i + |m|..]) then i else FirstResult(data, m, i + |m|))
  {
  }

  lemma {:induction false} FirstResultIsResult(data: seq<Byte>, m: seq<Byte>, start: nat)
    requires m != [] && FirstResult(data, m, start) >= 0
    ensures ResultAt(data, m, FirstResult(data, m, start))
    decreases |data| - start
  {
    FindIsLeftmost(data, m, start);
    var i := Find(data, m, start);
    if !CarriesStatus(data[i + |m|..]) {
      FirstResultIsResult(data, m, i + |m|);
    }
  }

  // ---- one step of withholding ----

  /** Exactly when the two kept-back pieces collide, bytes are lost. */
  predicate Collides(data: seq<Byte>, m: seq<Byte>)
    requires m != []
  {
    HoldsMarker(data, m) && PrefixLen(data[..RFind(data, m)], m) > 0
  }

  lemma HoldPrefixConservesIff(w: Split, m: seq<Byte>)
    requires m != []
    ensures var k, h := PrefixLen(w.visible, m), HoldPrefix(w, m);
      && h.visible + h.pending == (if k > 0 then w.visible else w.visible + w.pending)
  {
    hide PrefixLen;
    var k := PrefixLen(w.visible, m);
    assert w.visible[..|w.visible| - k] + w.visible[|w.visible| - k..] == w.visible;
  }

  /** One withholding step conserves its input exactly when the kept pieces do not collide;
      otherwise it loses the whole marker. */
  lemma WithholdConservesIff(data: seq<Byte>, m: seq<Byte>)
    requires m != []
    ensures var w := Withhold(data, m);
      && (w.visible + w.pending == data <==> !Collides(data, m))
      && (Collides(data, m) ==> w.visible + w.pending == data[..RFind(data, m)])
  {
    RFindIsRightmost(data, m);
    var w := HoldMarker(data, m);
    assert w.visible + w.pending == data;
    HoldPrefixConservesIff(w, m);
  }

  lemma CollisionIsNotSpaced(data: seq<Byte>, m: seq<Byte>)
    requires m != [] && Collides(data, m)
    ensures !Spaced(data, m)
  {
    RFindIsRightmost(data, m);
    var p := RFind(data, m);
    var k := PrefixLen(data[..p], m);
    PrefixLenIsLongest(data[..p], m);
    assert data[..p][p - k..] == data[p - k..p];
    assert OccursAt(data, m, p) && 1 <= k < |m| && data[p - k..p] == m[..k];
  }

  /** What is kept back is a proper marker prefix, or a marker with whitespace. */
  predicate KeptShape(pending: seq<Byte>, m: seq<Byte>) {
    || pending < m
    || (m <= pending && AllSpace(pending[|m|..]))
  }

  /** A marker that is cut off, or followed by whitespace only, is not released. */
  lemma WithholdCovers(data: seq<Byte>, m: seq<Byte>, i: int)
    requires GoodMarker(m) && Spaced(data, m) && OpenAt(data, m, i)
    ensures |Withhold(data, m).visible| <= i
    ensures KeptShape(Withhold(data, m).pending, m)
  {
    hide RFind, PrefixLen, Spaced;
    WithholdShape(data, m);
    if Collides(data, m) { CollisionIsNotSpaced(data, m); }
    RFindIsRightmost(data, m);
    if OccursAt(data, m, i) && AllSpace(data[i + |m|..]) {
      LastMarkerIsHeld(data, m, i);
    } else if !HoldsMarker(data, m) {
      assert EndsInPrefix(data, m, |data| - i);
      PrefixLenIsLongest(data, m);
    }
  }

  lemma LaterMarkerIsNotSpace(data: seq<Byte>, m: seq<Byte>, from: nat, p: int)
    requires GoodMarker(m) && OccursAt(data, m, p) && from <= p
    ensures !AllSpace(data[from..])
  {
    assert data[p..p + |m|][0] == m[0];
    assert data[from..][p - from] == data[p];
  }

  /** A marker with only whitespace behind it is the last marker. */
  lemma LastMarkerIsHeld(data: seq<Byte>, m: seq<Byte>, i: int)
    requires GoodMarker(m) && Spaced(data, m)
    requires OccursAt(data, m, i) && AllSpace(data[i + |m|..])
    ensures RFind(data, m) == i && HoldsMarker(data, m)
  {
    RFindIsRightmost(data, m);
    var p := RFind(data, m);
    if i < p {
      if p < i + |m| {
        assert data == data[..p + |m|] + data[p + |m|..];
        SpacedPrefix(data[..p + |m|], data[p + |m|..], m);
        OverlapIsNotSpaced(data, m, i, p);
      } else {
        LaterMarkerIsNotSpace(data, m, i + |m|, p);
      }
    }
  }

  lemma WithholdShape(data: seq<Byte>, m: seq<Byte>)
    requires m != []
    ensures KeptShape(Withhold(data, m).pending, m)
  {
    var w := HoldMarker(data, m);
    var keep := PrefixLen(w.visible, m);
    PrefixLenIsLongest(w.visible, m);
    if keep == 0 && HoldsMarker(data, m) {
      RFindIsRightmost(data, m);
      var p := RFind(data, m);
      assert data[p..][..|m|] == m;
      assert data[p..][|m|..] == data[p + |m|..];
    }
  }
}
