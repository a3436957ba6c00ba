/** Batched edits and tracking points, as the editor's `ITextEdit` and
    `ITrackingPoint` behave for the snippet handler.

    Every change of a batch is stated against the same snapshot; applying
    the batch produces the next snapshot in one step. Text inserted at one
    offset appears in the order the changes were issued, and a replaced span
    is deleted whatever other change touches it. */
module Edits {
  import opened Lines

  /** Replace `len` characters at `pos` by `text`; an insert has `len == 0`. */
  datatype Change = Change(pos: nat, len: nat, text: string)

  /** All text the batch inserts at offset `p`, in issue order. */
  function InsertsAt(cs: seq<Change>, p: nat): string
    decreases |cs|
  {
    if cs == [] then ""
    else (if cs[0].pos == p then cs[0].text else "") + InsertsAt(cs[1..], p)
  }

  /** The character at `q` lies in a span the batch replaces. */
  predicate Deleted(cs: seq<Change>, q: nat) {
    exists k :: 0 <= k < |cs| && cs[k].pos <= q < cs[k].pos + cs[k].len
  }

  /** What survives of the original character at `p`. */
  function Kept(t: string, cs: seq<Change>, p: nat): string
    requires p < |t|
  {
    if Deleted(cs, p) then "" else [t[p]]
  }

  /** The new text produced from offset `p` of the old text onwards. */
  function ApplyFrom(t: string, cs: seq<Change>, p: nat): string
    requires p <= |t|
    decreases |t| - p, 1
  {
    InsertsAt(cs, p) + Rest(t, cs, p)
  }

  /** Like `ApplyFrom`, but without the text inserted at `p` itself. */
  function Rest(t: string, cs: seq<Change>, p: nat): string
    requires p <= |t|
    decreases |t| - p, 0
  {
    if p == |t| then "" else Kept(t, cs, p) + ApplyFrom(t, cs, p + 1)
  }

  /** `edit.Apply()`: the snapshot after the whole batch; an empty batch
      leaves the text as it was. */
  function Apply(t: string, cs: seq<Change>): (r: string)
    ensures cs == [] ==> r == t
  {
    ApplyNone(t, 0);
    ApplyFrom(t, cs, 0)
  }

  /** Without changes, the text from `p` on is reproduced unchanged. */
  lemma {:induction false} ApplyNone(t: string, p: nat)
    requires p <= |t|
    ensures ApplyFrom(t, [], p) == t[p..]
    decreases |t| - p
  {
    if p < |t| {
      ApplyNone(t, p + 1);
      assert !Deleted([], p);
      assert t[p..] == [t[p]] + t[p + 1..];
    }
  }

  // ---------------------------------------------------------------------
  // Inserts at line starts

  predicate IsLineStartOf(L: seq<string>, p: nat) {
    exists j :: 0 <= j < |L| && Offset(L, j) == p
  }

  /** A batch made only of break-free inserts at line starts of `L`. */
  predicate LineStartInserts(L: seq<string>, cs: seq<Change>) {
    forall k :: 0 <= k < |cs| ==>
      cs[k].len == 0 && NoBreak(cs[k].text) && IsLineStartOf(L, cs[k].pos)
  }

  /** Each line with the batch's inserts at its start in front of it. */
  function Prefixed(L: seq<string>, cs: seq<Change>): (P: seq<string>)
    ensures |P| == |L|
  {
    seq(|L|, j requires 0 <= j < |L| => InsertsAt(cs, Offset(L, j)) + L[j])
  }

  /** The inserts of two batches issued one after the other, at one offset. */
  lemma {:induction false} InsertsAtAppend(a: seq<Change>, b: seq<Change>, p: nat)
    ensures InsertsAt(a + b, p) == InsertsAt(a, p) + InsertsAt(b, p)
    decreases |a|
  {
    if a == [] {
      assert a + b == b;
    } else {
      InsertsAtAppend(a[1..], b, p);
      InsertsAtAppendStep(a, b, p);
    }
  }

  /** The inductive step of `InsertsAtAppend`. */
  lemma InsertsAtAppendStep(a: seq<Change>, b: seq<Change>, p: nat)
    requires a != []
    requires InsertsAt(a[1..] + b, p) == InsertsAt(a[1..], p) + InsertsAt(b, p)
    ensures InsertsAt(a + b, p) == InsertsAt(a, p) + InsertsAt(b, p)
  {
    var head := if a[0].pos == p then a[0].text else "";
    assert (a + b)[0] == a[0] && (a + b)[1..] == a[1..] + b;
    assert InsertsAt(a + b, p) == head + InsertsAt(a[1..] + b, p);
    ConcatAssoc(head, InsertsAt(a[1..], p), InsertsAt(b, p));
  }

  /** Regrouping a concatenation.
      A separate step, so callers need not unfold the definitions in a larger context. */
  lemma ConcatAssoc(a: string, b: string, c: string)
    ensures (a + b) + c == a + (b + c)
  {
  }

  /** No change at `p`: nothing is inserted there. */
  lemma {:induction false} InsertsAtNone(cs: seq<Change>, p: nat)
    requires forall k :: 0 <= k < |cs| ==> cs[k].pos != p
    ensures InsertsAt(cs, p) == ""
    decreases |cs|
  {
    if cs != [] {
      InsertsAtNone(cs[1..], p);
    }
  }

  /** Break-free inserts give break-free text at every offset. */
  lemma {:induction false} InsertsAtNoBreak(cs: seq<Change>, p: nat)
    requires forall k :: 0 <= k < |cs| ==> NoBreak(cs[k].text)
    ensures NoBreak(InsertsAt(cs, p))
    decreases |cs|
  {
    if cs != [] {
      InsertsAtNoBreak(cs[1..], p);
      var h := if cs[0].pos == p then cs[0].text else "";
      assert forall c :: c in h + InsertsAt(cs[1..], p) ==> c in h || c in InsertsAt(cs[1..], p);
    }
  }

  /** One character of the old text that is neither deleted nor followed by an insert.
      A separate step, so callers need not unfold the definitions in a larger context. */
  lemma CopyOne(t: string, cs: seq<Change>, p: nat)
    requires p < |t| && !Deleted(cs, p) && InsertsAt(cs, p + 1) == ""
    ensures Rest(t, cs, p) == [t[p]] + Rest(t, cs, p + 1)
  {
  }

  /** Over a stretch with no inserts after its first offset and no deletions,
      the old text is copied unchanged. */
  lemma {:induction false} CopyRun(t: string, cs: seq<Change>, p: nat, q: nat)
    requires p <= q <= |t|
    requires forall x :: p < x <= q ==> InsertsAt(cs, x) == ""
    requires forall x :: p <= x < q ==> !Deleted(cs, x)
    ensures Rest(t, cs, p) == t[p..q] + Rest(t, cs, q)
    decreases q - p
  {
    if p == q {
      assert t[p..q] == "";
    } else {
      assert InsertsAt(cs, p + 1) == "" && !Deleted(cs, p);
      CopyOne(t, cs, p);
      CopyRun(t, cs, p + 1, q);
      assert t[p..q] == [t[p]] + t[p + 1..q];
      ConcatAssoc([t[p]], t[p + 1..q], Rest(t, cs, q));
    }
  }

  /** No change of a line-start batch inserts strictly inside line `i` or at its end. */
  lemma NoInsertInLine(L: seq<string>, cs: seq<Change>, i: nat, x: nat)
    requires WellFormed(L) && LineStartInserts(L, cs) && i < |L|
    requires Offset(L, i) < x <= Offset(L, i) + |L[i]|
    ensures InsertsAt(cs, x) == ""
  {
    forall k | 0 <= k < |cs| ensures cs[k].pos != x {
      var j :| 0 <= j < |L| && Offset(L, j) == cs[k].pos;
      if j <= i {
        OffsetMonotone(L, j, i);
      } else {
        OffsetMonotone(L, i + 1, j);
      }
    }
    InsertsAtNone(cs, x);
  }

  /** One line of the joined text: its prefix, its characters, then the break. */
  lemma LineStep(L: seq<string>, cs: seq<Change>, i: nat)
    requires WellFormed(L) && LineStartInserts(L, cs) && i < |L|
    ensures Offset(L, i) <= |Join(L)| && (i + 1 < |L| ==> Offset(L, i + 1) <= |Join(L)|)
    ensures ApplyFrom(Join(L), cs, Offset(L, i)) ==
            InsertsAt(cs, Offset(L, i)) + L[i] +
            (if i + 1 < |L| then "\n" + ApplyFrom(Join(L), cs, Offset(L, i + 1)) else "")
  {
    var T := Join(L);
    var s := Offset(L, i);
    var e := s + |L[i]|;
    JoinAt(L, i);
    forall x | s < x <= e ensures InsertsAt(cs, x) == "" {
      NoInsertInLine(L, cs, i, x);
    }
    CopyRun(T, cs, s, e);
    assert ApplyFrom(T, cs, s) == InsertsAt(cs, s) + L[i] + Rest(T, cs, e);
    if i + 1 < |L| {
      assert !Deleted(cs, e);
      assert Rest(T, cs, e) == "\n" + ApplyFrom(T, cs, e + 1);
    }
  }

  /** From line `i` on, the new text is the prefixed lines joined. */
  lemma {:induction false} SuffixPrefixed(L: seq<string>, cs: seq<Change>, i: nat)
    requires WellFormed(L) && LineStartInserts(L, cs) && i < |L|
    ensures Offset(L, i) <= |Join(L)| && (i + 1 < |L| ==> Offset(L, i + 1) <= |Join(L)|)
    ensures ApplyFrom(Join(L), cs, Offset(L, i)) == Join(Prefixed(L, cs)[i..])
    decreases |L| - i
  {
    var P := Prefixed(L, cs);
    LineStep(L, cs, i);
    assert P[i] == InsertsAt(cs, Offset(L, i)) + L[i];
    JoinHead(P[i..]);
    if i + 1 < |L| {
      SuffixPrefixed(L, cs, i + 1);
      assert P[i..][1..] == P[i + 1..];
    }
  }

  /** A batch of break-free inserts at line starts prefixes each line with
      exactly the text inserted at its start, and changes nothing else. */
  lemma LineStartInsertsApply(L: seq<string>, cs: seq<Change>)
    requires WellFormed(L) && LineStartInserts(L, cs)
    ensures WellFormed(Prefixed(L, cs))
    ensures Split(Apply(Join(L), cs)) == Prefixed(L, cs)
  {
    var P := Prefixed(L, cs);
    forall j | 0 <= j < |L| ensures NoBreak(P[j]) {
      InsertsAtNoBreak(cs, Offset(L, j));
      assert forall c :: c in P[j] ==> c in InsertsAt(cs, Offset(L, j)) || c in L[j];
    }
    SuffixPrefixed(L, cs, 0);
    assert P[0..] == P;
    SplitJoin(P);
  }

  // ---------------------------------------------------------------------
  // Tracking points

  /** `PointTrackingMode`: whether a point moves past text inserted exactly at it. */
  datatype TrackingMode = Positive | Negative

  /** Length of the new text produced for the old offsets before `p`. */
  function Emitted(cs: seq<Change>, p: nat): nat {
    if p == 0 then 0
    else Emitted(cs, p - 1) + |InsertsAt(cs, p - 1)| + (if Deleted(cs, p - 1) then 0 else 1)
  }

  /** Where a point at old offset `p` lands after the batch. It stays
      between the new text of the offsets before `p` and that of the offset
      after `p`, and without changes no point moves. */
  function Track(cs: seq<Change>, p: nat, mode: TrackingMode): (r: nat)
    ensures Emitted(cs, p) <= r <= Emitted(cs, p + 1)
    ensures cs == [] ==> r == p
  {
    EmittedNone(p);
    EmittedStep(cs, p);
    Emitted(cs, p) + (if mode == Positive then |InsertsAt(cs, p)| else 0)
  }

  /** Without changes, every old offset keeps its place. */
  lemma {:induction false} EmittedNone(p: nat)
    ensures Emitted([], p) == p
  {
    if p > 0 {
      EmittedNone(p - 1);
    }
  }

  /** The new snapshot is the text emitted before `p` followed by the text produced from `p` on. */
  lemma {:induction false} EmittedLength(t: string, cs: seq<Change>, p: nat)
    requires p <= |t|
    ensures |Apply(t, cs)| == Emitted(cs, p) + |ApplyFrom(t, cs, p)|
  {
    if p > 0 {
      EmittedLength(t, cs, p - 1);
    }
  }

  /** Later old offsets are preceded by at least as much new text. */
  lemma {:induction false} EmittedMonotone(cs: seq<Change>, p: nat, q: nat)
    requires p <= q
    ensures Emitted(cs, p) <= Emitted(cs, q)
    decreases q - p
  {
    if p < q {
      EmittedMonotone(cs, p, q - 1);
    }
  }

  /** The inserts at `p` come before the new text of the next offset.
      A separate step, so callers need not unfold the definitions in a larger context. */
  lemma EmittedStep(cs: seq<Change>, p: nat)
    ensures Emitted(cs, p) + |InsertsAt(cs, p)| <= Emitted(cs, p + 1)
  {
  }

  /** The new text produced from old offset `p` on is the tail of the new
      snapshot that starts where the text before `p` ends. */
  lemma {:induction false} ApplySuffix(t: string, cs: seq<Change>, p: nat)
    requires p <= |t|
    ensures Emitted(cs, p) <= |Apply(t, cs)|
    ensures Apply(t, cs)[Emitted(cs, p)..] == ApplyFrom(t, cs, p)
    decreases p
  {
    if p == 0 {
      assert Apply(t, cs)[0..] == Apply(t, cs);
    } else {
      ApplySuffix(t, cs, p - 1);
      ApplySuffixStep(t, cs, p, Apply(t, cs));
    }
  }

  /** The inductive step of `ApplySuffix`, for any text `a` standing for the
      new snapshot. */
  lemma ApplySuffixStep(t: string, cs: seq<Change>, p: nat, a: string)
    requires 0 < p <= |t|
    requires Emitted(cs, p - 1) <= |a| && a[Emitted(cs, p - 1)..] == ApplyFrom(t, cs, p - 1)
    ensures Emitted(cs, p) <= |a| && a[Emitted(cs, p)..] == ApplyFrom(t, cs, p)
  {
    var head := InsertsAt(cs, p - 1) + Kept(t, cs, p - 1);
    ApplyFromStep(t, cs, p);
    assert Emitted(cs, p) == Emitted(cs, p - 1) + |head|;
    DropPrefix(a, Emitted(cs, p - 1), head, ApplyFrom(t, cs, p));
  }

  /** `ApplyFrom` unfolded at one old character. */
  lemma ApplyFromStep(t: string, cs: seq<Change>, p: nat)
    requires 0 < p <= |t|
    ensures ApplyFrom(t, cs, p - 1) == (InsertsAt(cs, p - 1) + Kept(t, cs, p - 1)) + ApplyFrom(t, cs, p)
  {
    assert ApplyFrom(t, cs, p - 1) == InsertsAt(cs, p - 1) + (Kept(t, cs, p - 1) + ApplyFrom(t, cs, p));
    ConcatAssoc(InsertsAt(cs, p - 1), Kept(t, cs, p - 1), ApplyFrom(t, cs, p));
  }

  /** A tail that starts with `head` continues, past `head`, with the rest. */
  lemma DropPrefix(a: string, e: nat, head: string, rest: string)
    requires e <= |a| && a[e..] == head + rest
    ensures e + |head| <= |a| && a[e + |head|..] == rest
  {
    assert a[e + |head|..] == a[e..][|head|..];
  }

  /** The text of a batch's first change appears in the new snapshot at
      the point its offset is tracked to with `Negative` mode. */
  lemma FirstChangeLands(t: string, cs: seq<Change>)
    requires cs != [] && cs[0].pos <= |t|
    ensures var q := Track(cs, cs[0].pos, Negative);
            q + |cs[0].text| <= |Apply(t, cs)| && Apply(t, cs)[q..q + |cs[0].text|] == cs[0].text
  {
    var p := cs[0].pos;
    var q := Emitted(cs, p);
    var text := cs[0].text;
    ApplySuffix(t, cs, p);
    assert InsertsAt(cs, p) == text + InsertsAt(cs[1..], p);
    var tail := InsertsAt(cs[1..], p) + Rest(t, cs, p);
    ConcatAssoc(text, InsertsAt(cs[1..], p), Rest(t, cs, p));
    assert Apply(t, cs)[q..] == text + tail;
    assert Apply(t, cs)[q..q + |text|] == (text + tail)[..|text|];
  }

  /** A tracked point stays inside the new snapshot. */
  lemma TrackWithin(t: string, cs: seq<Change>, p: nat, mode: TrackingMode)
    requires p <= |t|
    ensures Track(cs, p, mode) <= |Apply(t, cs)|
  {
    EmittedLength(t, cs, p);
  }

  /** A selection tracked with a Positive start and a Negative end comes out
      reversed exactly when it was empty and the batch inserted text at it. */
  lemma TrackedSelectionReversed(cs: seq<Change>, s: nat, e: nat)
    requires s <= e
    ensures Track(cs, e, Negative) < Track(cs, s, Positive) <==> s == e && InsertsAt(cs, s) != ""
  {
    if s < e {
      TrackedApart(cs, s, e);
    } else {
      var ins := InsertsAt(cs, s);
      assert Track(cs, s, Positive) == Emitted(cs, s) + |ins|;
      assert |ins| > 0 <==> ins != "";
    }
  }

  /** Points at distinct offsets keep their order, whatever their modes. */
  lemma TrackedApart(cs: seq<Change>, s: nat, e: nat)
    requires s < e
    ensures Track(cs, s, Positive) <= Track(cs, e, Negative)
  {
    EmittedStep(cs, s);
    EmittedMonotone(cs, s + 1, e);
  }

  /** A point resolved through successive batches (`GetPosition` on a later snapshot). */
  function Resolve(batches: seq<seq<Change>>, p: nat, mode: TrackingMode): nat
    decreases |batches|
  {
    if batches == [] then p else Resolve(batches[1..], Track(batches[0], p, mode), mode)
  }

  /** Each snapshot is the previous one with its batch applied. */
  predicate History(versions: seq<string>, batches: seq<seq<Change>>) {
    |versions| == |batches| + 1 &&
    forall i :: 0 <= i < |batches| ==> versions[i + 1] == Apply(versions[i], batches[i])
  }

  /** A point valid in snapshot `v` resolves to a position in the latest snapshot. */
  lemma {:induction false} ResolveWithin(versions: seq<string>, batches: seq<seq<Change>>, v: nat, p: nat, mode: TrackingMode)
    requires History(versions, batches) && v < |versions| && p <= |versions[v]|
    ensures Resolve(batches[v..], p, mode) <= |versions[|versions| - 1]|
    decreases |versions| - v
  {
    if v < |batches| {
      TrackWithin(versions[v], batches[v], p, mode);
      assert batches[v..][1..] == batches[v + 1..];
      ResolveWithin(versions, batches, v + 1, Track(batches[v], p, mode), mode);
    } else {
      assert batches[v..] == [];
    }
  }
}
