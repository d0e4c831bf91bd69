/**
 * The list algorithms behind a connection's polled-tag list, as functions of
 * the list before the call and the `sub_tags` argument, with what they
 * compute proved as lemmas.
 *
 * Each of `update_polled_tags` and `remove_polled_tags` has three phases:
 * a first loop over `sub_tags` (append the missing ids, or remove the listed
 * ones), a loop that collects the "hitlist" of indices whose id is not in
 * `sub_tags`, and a loop that runs `pop(i)` for `i` from `len(hitlist) - 1`
 * down to 0. That last loop pops the first `len(hitlist)` entries, not the
 * entries the hitlist names.
 */
module PolledTags {

  type TagId = string

  /** No id occurs twice. */
  ghost predicate Distinct(s: seq<TagId>)
  {
    forall i, j :: 0 <= i < j < |s| ==> s[i] != s[j]
  }

  // ---------------------------------------------------------------------
  // Phase 1 of update_polled_tags: append every id of sub_tags not present
  // ---------------------------------------------------------------------

  /** The list after `for tag in sub: if tag not in pt: pt.append(tag)`. */
  function AppendMissing(pt: seq<TagId>, sub: seq<TagId>): (r: seq<TagId>)
    ensures pt <= r
    decreases |sub|
  {
    if sub == [] then pt
    else
      var a := AppendMissing(pt, sub[..|sub| - 1]);
      var t := sub[|sub| - 1];
      if t in a then a else a + [t]
  }

  /** The appended phase keeps the old list as a prefix, adds every id of `sub`,
      and adds only ids of `sub` that were not already present. */
  lemma {:induction false} AppendMissingSpec(pt: seq<TagId>, sub: seq<TagId>)
    ensures forall t :: t in sub ==> t in AppendMissing(pt, sub)
    ensures forall k :: |pt| <= k < |AppendMissing(pt, sub)| ==>
      AppendMissing(pt, sub)[k] in sub && AppendMissing(pt, sub)[k] !in pt
    ensures forall t :: t in AppendMissing(pt, sub) ==> t in pt || t in sub
    decreases |sub|
  {
    if sub != [] {
      var s' := sub[..|sub| - 1];
      AppendMissingSpec(pt, s');
      assert forall t :: t in s' ==> t in sub;
      assert sub == s' + [sub[|sub| - 1]];
    }
  }

  /** A list without duplicates stays without duplicates, whatever `sub` repeats. */
  lemma {:induction false} AppendMissingDistinct(pt: seq<TagId>, sub: seq<TagId>)
    requires Distinct(pt)
    ensures Distinct(AppendMissing(pt, sub))
    decreases |sub|
  {
    if sub != [] {
      AppendMissingDistinct(pt, sub[..|sub| - 1]);
    }
  }

  /** Appending to a list that shares no id with `sub` appends the same ids
      as appending to the empty list. */
  lemma {:induction false} AppendMissingDisjoint(pt: seq<TagId>, sub: seq<TagId>)
    requires forall i :: 0 <= i < |pt| ==> pt[i] !in sub
    ensures AppendMissing(pt, sub) == pt + AppendMissing([], sub)
    decreases |sub|
  {
    if sub != [] {
      var s' := sub[..|sub| - 1];
      var t := sub[|sub| - 1];
      assert forall i :: 0 <= i < |pt| ==> pt[i] !in s' by {
        assert forall x :: x in s' ==> x in sub;
      }
      AppendMissingDisjoint(pt, s');
      assert t !in pt;
      assert (t in pt + AppendMissing([], s')) == (t in AppendMissing([], s'));
    }
  }

  // ---------------------------------------------------------------------
  // Phase 2: the hitlist, and the entries that survive a correct removal
  // ---------------------------------------------------------------------

  /** `[i for i, tag in enumerate(a) if not tag in sub]`. */
  function Hitlist(a: seq<TagId>, sub: seq<TagId>): (hit: seq<nat>)
    ensures |hit| <= |a|
    decreases |a|
  {
    if a == [] then []
    else Hitlist(a[..|a| - 1], sub) + (if a[|a| - 1] in sub then [] else [|a| - 1])
  }

  /** The entries of `a` that are ids of `sub`, in their order. */
  function Keep(a: seq<TagId>, sub: seq<TagId>): (r: seq<TagId>)
    decreases |a|
  {
    if a == [] then []
    else Keep(a[..|a| - 1], sub) + (if a[|a| - 1] in sub then [a[|a| - 1]] else [])
  }

  /** The hitlist names, in increasing order, exactly the indices of the
      entries that are not in `sub`. */
  lemma {:induction false} HitlistSpec(a: seq<TagId>, sub: seq<TagId>)
    ensures forall j :: 0 <= j < |Hitlist(a, sub)| ==>
      Hitlist(a, sub)[j] < |a| && a[Hitlist(a, sub)[j]] !in sub
    ensures forall j, k :: 0 <= j < k < |Hitlist(a, sub)| ==> Hitlist(a, sub)[j] < Hitlist(a, sub)[k]
    ensures forall i :: 0 <= i < |a| && a[i] !in sub ==> i in Hitlist(a, sub)
    decreases |a|
  {
    if a != [] {
      var a' := a[..|a| - 1];
      HitlistSpec(a', sub);
      assert forall i :: 0 <= i < |a'| ==> a'[i] == a[i];
    }
  }

  /** Every entry is either kept or named by the hitlist. */
  lemma {:induction false} HitlistKeepCount(a: seq<TagId>, sub: seq<TagId>)
    ensures |Hitlist(a, sub)| + |Keep(a, sub)| == |a|
    decreases |a|
  {
    if a != [] {
      HitlistKeepCount(a[..|a| - 1], sub);
    }
  }

  /** An id is kept exactly when it is in both lists; keeping preserves
      the absence of duplicates. */
  lemma {:induction false} KeepSpec(a: seq<TagId>, sub: seq<TagId>)
    ensures forall t :: t in Keep(a, sub) <==> t in a && t in sub
    ensures Distinct(a) ==> Distinct(Keep(a, sub))
    decreases |a|
  {
    if a != [] {
      var a' := a[..|a| - 1];
      KeepSpec(a', sub);
      assert a == a' + [a[|a| - 1]];
      if Distinct(a) {
        assert Distinct(a');
        assert a[|a| - 1] !in a';
      }
    }
  }

  /** A list none of whose entries is in `sub` keeps nothing. */
  lemma {:induction false} KeepNone(a: seq<TagId>, sub: seq<TagId>)
    requires forall i :: 0 <= i < |a| ==> a[i] !in sub
    ensures Keep(a, sub) == []
    decreases |a|
  {
    if a != [] {
      KeepNone(a[..|a| - 1], sub);
    }
  }

  /** Keeping distributes over concatenation. */
  lemma {:induction false} KeepAppend(x: seq<TagId>, y: seq<TagId>, sub: seq<TagId>)
    ensures Keep(x + y, sub) == Keep(x, sub) + Keep(y, sub)
    decreases |y|
  {
    if y == [] {
      assert x + y == x;
    } else {
      var y' := y[..|y| - 1];
      KeepAppend(x, y', sub);
      assert (x + y)[..|x + y| - 1] == x + y';
    }
  }

  /** A list all of whose entries are in `sub` is kept whole. */
  lemma {:induction false} KeepAll(a: seq<TagId>, sub: seq<TagId>)
    requires forall i :: 0 <= i < |a| ==> a[i] in sub
    ensures Keep(a, sub) == a
    decreases |a|
  {
    if a != [] {
      KeepAll(a[..|a| - 1], sub);
    }
  }

  // ---------------------------------------------------------------------
  // The corrected pop loop: pop(hitlist[i]) for i from len(hitlist) - 1 down
  // ---------------------------------------------------------------------

  /** The index just after the `i`-th hit (0 before the first). */
  function Cut(hit: seq<nat>, i: int): nat
    requires -1 <= i < |hit|
  {
    if i >= 0 then hit[i] + 1 else 0
  }

  /** An index the hitlist does not name holds a member of `sub`. */
  lemma NotHitIsMember(a: seq<TagId>, sub: seq<TagId>, k: nat)
    requires k < |a|
    requires forall j :: 0 <= j < |Hitlist(a, sub)| ==> Hitlist(a, sub)[j] != k
    ensures a[k] in sub
  {
    HitlistSpec(a, sub);
    assert k !in Hitlist(a, sub);
  }

  /** Between two consecutive hits, and after the last one, every entry is in `sub`. */
  lemma MembersBetweenHits(a: seq<TagId>, sub: seq<TagId>, i: int)
    requires -1 <= i < |Hitlist(a, sub)|
    ensures var hit := Hitlist(a, sub);
      var hi := if i + 1 < |hit| then hit[i + 1] else |a|;
      Cut(hit, i) <= hi <= |a| &&
      forall k :: Cut(hit, i) <= k < hi ==> a[k] in sub
  {
    var hit := Hitlist(a, sub);
    HitlistSpec(a, sub);
    var hi := if i + 1 < |hit| then hit[i + 1] else |a|;
    forall k | Cut(hit, i) <= k < hi
      ensures a[k] in sub
    {
      forall j | 0 <= j < |hit|
        ensures hit[j] != k
      {
        if j <= i {
          assert hit[j] <= hit[i] < Cut(hit, i);
        } else {
          assert hit[i + 1] <= hit[j];
        }
      }
      NotHitIsMember(a, sub, k);
    }
  }

  /** Before the corrected pop loop, the list is its own prefix up to just
      after the last hit, followed by the kept rest. */
  lemma PopHitsStart(a: seq<TagId>, sub: seq<TagId>)
    ensures var hit := Hitlist(a, sub);
      var c := Cut(hit, |hit| - 1);
      c <= |a| && a == a[..c] + Keep(a[c..], sub)
  {
    var hit := Hitlist(a, sub);
    var c := Cut(hit, |hit| - 1);
    MembersBetweenHits(a, sub, |hit| - 1);
    KeepAll(a[c..], sub);
    assert a == a[..c] + a[c..];
  }

  /** The `i`-th hit is an index of a non-member, after the previous hit. */
  lemma HitAt(a: seq<TagId>, sub: seq<TagId>, i: nat)
    requires i < |Hitlist(a, sub)|
    ensures var hit := Hitlist(a, sub);
      hit[i] < |a| && a[hit[i]] !in sub && Cut(hit, i - 1) <= hit[i]
  {
    HitlistSpec(a, sub);
  }

  /** Removing the non-member at `h`, when the entries from `c` up to `h` are
      members, keeps the shape "prefix, then kept rest" with the cut moved to `c`. */
  lemma SpliceOut(a: seq<TagId>, sub: seq<TagId>, c: nat, h: nat)
    requires c <= h < |a|
    requires forall k :: c <= k < h ==> a[k] in sub
    requires a[h] !in sub
    ensures a[..h] + Keep(a[h + 1..], sub) == a[..c] + Keep(a[c..], sub)
  {
    var mid, rest := a[c..h], a[h + 1..];
    assert forall k :: 0 <= k < |mid| ==> mid[k] == a[c + k];
    KeepAll(mid, sub);
    assert a[c..] == (mid + [a[h]]) + rest;
    KeepAppend(mid + [a[h]], rest, sub);
    KeepAppend(mid, [a[h]], sub);
    assert Keep([a[h]], sub) == [] by {
      assert [a[h]][..0] == [];
    }
    assert a[..h] == a[..c] + mid;
  }

  /** Popping the `i`-th hit from a list of the shape "prefix up to just after
      the hit, then kept rest" gives the same shape with the cut moved back to
      just after the previous hit. */
  lemma PopHitsStep(a: seq<TagId>, sub: seq<TagId>, i: nat, cur: seq<TagId>)
    requires i < |Hitlist(a, sub)|
    requires Cut(Hitlist(a, sub), i) <= |a|
    requires cur == a[..Cut(Hitlist(a, sub), i)] + Keep(a[Cut(Hitlist(a, sub), i)..], sub)
    ensures var hit := Hitlist(a, sub);
      hit[i] < |cur| &&
      Cut(hit, i - 1) <= |a| &&
      cur[..hit[i]] + cur[hit[i] + 1..] ==
      a[..Cut(hit, i - 1)] + Keep(a[Cut(hit, i - 1)..], sub)
  {
    var hit := Hitlist(a, sub);
    var h := hit[i];
    HitAt(a, sub, i);
    MembersBetweenHits(a, sub, i - 1);
    SpliceOut(a, sub, Cut(hit, i - 1), h);
    assert cur[..h] == a[..h];
    assert cur[h + 1..] == Keep(a[h + 1..], sub);
  }

  // ---------------------------------------------------------------------
  // update_polled_tags: as written and as intended
  // ---------------------------------------------------------------------

  /** The polled-tag list after `update_polled_tags(sub)` as the code is
      written: the pop loop drops the first `len(hitlist)` entries. */
  function UpdatedAsWritten(pt: seq<TagId>, sub: seq<TagId>): seq<TagId>
  {
    var a := AppendMissing(pt, sub);
    a[|Hitlist(a, sub)|..]
  }

  /** The list `update_polled_tags(sub)` is meant to leave: the ids of `sub`,
      each once, old ones in their old order followed by the new ones. */
  function UpdatedIntended(pt: seq<TagId>, sub: seq<TagId>): seq<TagId>
  {
    Keep(AppendMissing(pt, sub), sub)
  }

  /** As written, the result is the suffix of the appended list whose length
      is the number of its entries that are in `sub`. */
  lemma UpdatedAsWrittenIsSuffix(pt: seq<TagId>, sub: seq<TagId>)
    ensures var a := AppendMissing(pt, sub);
      |UpdatedAsWritten(pt, sub)| == |Keep(a, sub)| &&
      UpdatedAsWritten(pt, sub) == a[|a| - |Keep(a, sub)|..]
  {
    HitlistKeepCount(AppendMissing(pt, sub), sub);
  }

  /** The intended result polls exactly the ids of `sub`, without duplicates
      when the old list had none. */
  lemma UpdatedIntendedSpec(pt: seq<TagId>, sub: seq<TagId>)
    ensures forall t :: t in UpdatedIntended(pt, sub) <==> t in sub
    ensures Distinct(pt) ==> Distinct(UpdatedIntended(pt, sub))
  {
    var a := AppendMissing(pt, sub);
    AppendMissingSpec(pt, sub);
    KeepSpec(a, sub);
    if Distinct(pt) {
      AppendMissingDistinct(pt, sub);
    }
  }

  /** If the first `k` entries are exactly the non-members, dropping the first
      `len(hitlist)` entries drops exactly the non-members. */
  lemma {:induction false} DropFrontKeepsMembers(a: seq<TagId>, sub: seq<TagId>, k: nat)
    requires k <= |a|
    requires forall i :: 0 <= i < k ==> a[i] !in sub
    requires forall i :: k <= i < |a| ==> a[i] in sub
    ensures |Hitlist(a, sub)| == k
    ensures a[|Hitlist(a, sub)|..] == Keep(a, sub)
    decreases |a|
  {
    HitlistKeepCount(a, sub);
    if |a| == k {
      KeepNone(a, sub);
    } else {
      var a' := a[..|a| - 1];
      DropFrontKeepsMembers(a', sub, k);
      assert a[k..] == a'[k..] + [a[|a| - 1]];
    }
  }

  /** The code as written gives the intended result when the ids of the old
      list that are not in `sub` sit at its front. */
  lemma UpdatedAsWrittenWhenNonMembersLead(pt: seq<TagId>, sub: seq<TagId>, k: nat)
    requires k <= |pt|
    requires forall i :: 0 <= i < k ==> pt[i] !in sub
    requires forall i :: k <= i < |pt| ==> pt[i] in sub
    ensures UpdatedAsWritten(pt, sub) == UpdatedIntended(pt, sub)
  {
    var a := AppendMissing(pt, sub);
    AppendMissingSpec(pt, sub);
    assert forall i :: 0 <= i < |pt| ==> a[i] == pt[i];
    DropFrontKeepsMembers(a, sub, k);
  }

  /** A list that keeps nothing holds no member of `sub`. */
  lemma KeepEmptyHasNoMembers(x: seq<TagId>, sub: seq<TagId>)
    requires Keep(x, sub) == []
    ensures forall i :: 0 <= i < |x| ==> x[i] !in sub
  {
    KeepSpec(x, sub);
    forall i | 0 <= i < |x|
      ensures x[i] !in sub
    {
      assert x[i] !in Keep(x, sub);
    }
  }

  /** A list whose kept entries are its own suffix from `h` on has only
      members of `sub` from `h` on. */
  lemma KeptSuffixMembers(a: seq<TagId>, sub: seq<TagId>, h: nat)
    requires h <= |a|
    requires a[h..] == Keep(a, sub)
    ensures forall i :: h <= i < |a| ==> a[i] in sub
  {
    KeepSpec(a, sub);
    forall i | h <= i < |a|
      ensures a[i] in sub
    {
      assert a[i] == Keep(a, sub)[i - h];
    }
  }

  /** A list whose kept entries are its own suffix from `h` on has only
      non-members before `h`. */
  lemma KeptSuffixNonMembers(a: seq<TagId>, sub: seq<TagId>, h: nat)
    requires h <= |a|
    requires a[h..] == Keep(a, sub)
    ensures forall i :: 0 <= i < h ==> a[i] !in sub
  {
    var front, back := a[..h], a[h..];
    KeptSuffixMembers(a, sub, h);
    KeepAll(back, sub);
    assert a == front + back;
    KeepAppend(front, back, sub);
    KeepEmptyHasNoMembers(front, sub);
    assert forall i :: 0 <= i < h ==> a[i] == front[i];
  }

  /** The converse: whenever the code as written gives the intended result,
      the ids of the old list that are not in `sub` sit at its front, and `k`
      is how many of them there are. */
  lemma UpdatedAsWrittenOnlyWhenNonMembersLead(pt: seq<TagId>, sub: seq<TagId>) returns (k: nat)
    requires UpdatedAsWritten(pt, sub) == UpdatedIntended(pt, sub)
    ensures k <= |pt|
    ensures forall i :: 0 <= i < k ==> pt[i] !in sub
    ensures forall i :: k <= i < |pt| ==> pt[i] in sub
  {
    var a := AppendMissing(pt, sub);
    var h := |Hitlist(a, sub)|;
    KeptSuffixMembers(a, sub, h);
    KeptSuffixNonMembers(a, sub, h);
    AppendMissingSpec(pt, sub);
    assert forall i :: 0 <= i < |pt| ==> a[i] == pt[i];
    assert h <= |pt| by {
      if |pt| < |a| {
        assert a[|pt|] in sub;
      }
    }
    k := h;
  }

  /** As written, `update_polled_tags` keeps a list without duplicates free of
      them. */
  lemma UpdatedAsWrittenDistinct(pt: seq<TagId>, sub: seq<TagId>)
    requires Distinct(pt)
    ensures Distinct(UpdatedAsWritten(pt, sub))
  {
    AppendMissingDistinct(pt, sub);
  }

  /** Starting from a list that shares no id with `sub` (the empty list, say),
      the result is the distinct ids of `sub` in first-occurrence order. */
  lemma UpdatedFromDisjoint(pt: seq<TagId>, sub: seq<TagId>)
    requires forall i :: 0 <= i < |pt| ==> pt[i] !in sub
    ensures UpdatedAsWritten(pt, sub) == AppendMissing([], sub)
    ensures Distinct(UpdatedAsWritten(pt, sub))
    ensures forall t :: t in UpdatedAsWritten(pt, sub) <==> t in sub
  {
    AppendMissingDisjoint(pt, sub);
    AppendMissingSpec([], sub);
    AppendMissingDistinct([], sub);
    UpdatedAsWrittenWhenNonMembersLead(pt, sub, |pt|);
    var a := AppendMissing(pt, sub);
    DropFrontKeepsMembers(a, sub, |pt|);
  }

  /** The two-call scenario `["t1","t2"]` then `["t2"]` leaves `["t2"]`. */
  lemma UpdateScenario()
    ensures UpdatedAsWritten([], ["t1", "t2"]) == ["t1", "t2"]
    ensures UpdatedAsWritten(["t1", "t2"], ["t2"]) == ["t2"]
  {
    var both: seq<TagId> := ["t1", "t2"];
    UpdatedFromDisjoint([], both);
    assert both[..1] == ["t1"] && ["t1"][..0] == [];
    assert AppendMissing([], ["t1"]) == ["t1"];
    assert AppendMissing([], both) == both;
    UpdatedAsWrittenWhenNonMembersLead(both, ["t2"], 1);
    assert ["t2"][..0] == [];
    assert AppendMissing(both, ["t2"]) == both;
    assert both[..1][..0] == [];
    assert Keep(both[..1], ["t2"]) == [];
    assert Keep(both, ["t2"]) == ["t2"];
  }

  /** `["t1","t2"]` then `["t1"]`: the code as written keeps `"t2"` and drops
      `"t1"`, the reverse of the intended result. */
  lemma UpdateDropsWrongEntry()
    ensures UpdatedAsWritten(["t1", "t2"], ["t1"]) == ["t2"]
    ensures UpdatedIntended(["t1", "t2"], ["t1"]) == ["t1"]
  {
    var pt: seq<TagId> := ["t1", "t2"];
    assert AppendMissing(pt, ["t1"]) == pt by {
      assert AppendMissing(pt, []) == pt;
    }
    assert Hitlist(pt, ["t1"]) == [1] by {
      assert pt[..1] == ["t1"];
      assert Hitlist(pt[..1], ["t1"]) == [] by {
        assert pt[..1][..0] == [];
      }
    }
    assert Keep(pt, ["t1"]) == ["t1"] by {
      assert pt[..1] == ["t1"];
      assert Keep(pt[..1], ["t1"]) == ["t1"] by {
        assert pt[..1][..0] == [];
      }
    }
  }

  // ---------------------------------------------------------------------
  // remove_polled_tags: as written and as intended
  // ---------------------------------------------------------------------

  /** `s.remove(x)`: drop the first occurrence of `x`. */
  function RemoveFirst(s: seq<TagId>, x: TagId): (r: seq<TagId>)
    ensures |r| <= |s|
  {
    if s == [] then []
    else if s[0] == x then s[1..]
    else [s[0]] + RemoveFirst(s[1..], x)
  }

  /** The list after `for tag in sub: if tag in pt: pt.remove(tag)`. */
  function RemoveEach(pt: seq<TagId>, sub: seq<TagId>): seq<TagId>
    decreases |sub|
  {
    if sub == [] then pt
    else
      var r := RemoveEach(pt, sub[..|sub| - 1]);
      var t := sub[|sub| - 1];
      if t in r then RemoveFirst(r, t) else r
  }

  /** The entries of `a` that are not ids of `sub`, in their order. */
  function Exclude(a: seq<TagId>, sub: seq<TagId>): (r: seq<TagId>)
  {
    if a == [] then []
    else (if a[0] in sub then [] else [a[0]]) + Exclude(a[1..], sub)
  }

  /** The polled-tag list after `remove_polled_tags(sub)` as the code is written. */
  function RemovedAsWritten(pt: seq<TagId>, sub: seq<TagId>): seq<TagId>
  {
    var r := RemoveEach(pt, sub);
    r[|Hitlist(r, sub)|..]
  }

  /** An id survives exclusion exactly when it is in `a` and not in `sub`;
      exclusion preserves the absence of duplicates. */
  lemma {:induction false} ExcludeSpec(a: seq<TagId>, sub: seq<TagId>)
    ensures forall t :: t in Exclude(a, sub) <==> t in a && t !in sub
    ensures Distinct(a) ==> Distinct(Exclude(a, sub))
    decreases |a|
  {
    if a != [] {
      ExcludeSpec(a[1..], sub);
      assert a == [a[0]] + a[1..];
      if Distinct(a) {
        assert Distinct(a[1..]);
        assert a[0] !in a[1..];
      }
    }
  }

  /** Excluding ids that do not occur changes nothing. */
  lemma {:induction false} ExcludeAbsent(a: seq<TagId>, sub: seq<TagId>)
    requires forall i :: 0 <= i < |a| ==> a[i] !in sub
    ensures Exclude(a, sub) == a
    decreases |a|
  {
    if a != [] {
      ExcludeAbsent(a[1..], sub);
    }
  }

  /** Excluding `s` and then `t` is excluding `s + [t]`. */
  lemma {:induction false} ExcludeThenOne(a: seq<TagId>, s: seq<TagId>, t: TagId)
    ensures Exclude(Exclude(a, s), [t]) == Exclude(a, s + [t])
    decreases |a|
  {
    if a != [] {
      ExcludeThenOne(a[1..], s, t);
      var head := if a[0] in s then [] else [a[0]];
      assert Exclude(a, s) == head + Exclude(a[1..], s);
      ExcludeAppend(head, Exclude(a[1..], s), [t]);
    }
  }

  /** Exclusion distributes over concatenation. */
  lemma {:induction false} ExcludeAppend(x: seq<TagId>, y: seq<TagId>, sub: seq<TagId>)
    ensures Exclude(x + y, sub) == Exclude(x, sub) + Exclude(y, sub)
    decreases |x|
  {
    if x != [] {
      ExcludeAppend(x[1..], y, sub);
      assert (x + y)[0] == x[0];
      assert (x + y)[1..] == x[1..] + y;
      var head := if x[0] in sub then [] else [x[0]];
      assert Exclude(x + y, sub) == head + Exclude(x[1..] + y, sub);
      assert Exclude(x, sub) == head + Exclude(x[1..], sub);
    } else {
      assert x + y == y;
    }
  }

  /** On a list without duplicates, `remove(x)` drops every occurrence of `x`. */
  lemma {:induction false} RemoveFirstDistinct(s: seq<TagId>, x: TagId)
    requires Distinct(s)
    ensures RemoveFirst(s, x) == Exclude(s, [x])
    decreases |s|
  {
    if s != [] {
      assert Distinct(s[1..]);
      if s[0] == x {
        assert forall i :: 0 <= i < |s[1..]| ==> s[1..][i] !in [x];
        ExcludeAbsent(s[1..], [x]);
      } else {
        RemoveFirstDistinct(s[1..], x);
      }
    }
  }

  /** On a list without duplicates, the first loop of `remove_polled_tags`
      is exactly subtraction of the ids of `sub`. */
  lemma {:induction false} RemoveEachIsSubtraction(pt: seq<TagId>, sub: seq<TagId>)
    requires Distinct(pt)
    ensures RemoveEach(pt, sub) == Exclude(pt, sub)
    decreases |sub|
  {
    if sub != [] {
      var s' := sub[..|sub| - 1];
      var t := sub[|sub| - 1];
      assert sub == s' + [t];
      RemoveEachIsSubtraction(pt, s');
      var r := Exclude(pt, s');
      ExcludeSpec(pt, s');
      ExcludeThenOne(pt, s', t);
      assert RemoveEach(pt, sub) == if t in r then RemoveFirst(r, t) else r;
      if t in r {
        RemoveFirstDistinct(r, t);
      } else {
        assert forall i :: 0 <= i < |r| ==> r[i] !in [t];
        ExcludeAbsent(r, [t]);
      }
    } else {
      ExcludeAbsent(pt, sub);
    }
  }

  /** As written, `remove_polled_tags` empties a list without duplicates,
      whatever `sub` holds: after the first loop no entry is in `sub`, so the
      hitlist names every index and the pop loop drops them all. */
  lemma RemovedAsWrittenClears(pt: seq<TagId>, sub: seq<TagId>)
    requires Distinct(pt)
    ensures RemovedAsWritten(pt, sub) == []
  {
    var r := RemoveEach(pt, sub);
    RemoveEachIsSubtraction(pt, sub);
    ExcludeSpec(pt, sub);
    KeepNone(r, sub);
    HitlistKeepCount(r, sub);
  }

  /** `["t1","t2"]` minus `["t1"]`: the code leaves nothing, where `["t2"]` was meant. */
  lemma RemoveDropsEverything()
    ensures RemovedAsWritten(["t1", "t2"], ["t1"]) == []
    ensures Exclude(["t1", "t2"], ["t1"]) == ["t2"]
  {
    RemovedAsWrittenClears(["t1", "t2"], ["t1"]);
  }

  // ---------------------------------------------------------------------
  // The loop of phase 2, and the counting used by one polling cycle
  // ---------------------------------------------------------------------

  /** The hitlist loop of both update methods. */
  method CollectHitlist(a: seq<TagId>, sub: seq<TagId>) returns (hit: seq<nat>)
    ensures hit == Hitlist(a, sub)
    ensures forall j :: 0 <= j < |hit| ==> hit[j] < |a| && a[hit[j]] !in sub
  {
    hit := [];
    var i := 0;
    while i < |a|
      invariant 0 <= i <= |a|
      invariant hit == Hitlist(a[..i], sub)
    {
      assert a[..i + 1][..i] == a[..i];
      if !(a[i] in sub) {
        hit := hit + [i];
      }
      i := i + 1;
    }
    assert a[..|a|] == a;
    HitlistSpec(a, sub);
  }

  /** How often `t` occurs in `s`. */
  function Occurrences(s: seq<TagId>, t: TagId): (n: nat)
    ensures n <= |s|
    decreases |s|
  {
    if s == [] then 0
    else Occurrences(s[..|s| - 1], t) + (if s[|s| - 1] == t then 1 else 0)
  }

  /** An id occurs in a list exactly when it is counted, and in a list without
      duplicates it is counted at most once. */
  lemma {:induction false} OccurrencesSpec(s: seq<TagId>, t: TagId)
    ensures Occurrences(s, t) > 0 <==> t in s
    ensures Distinct(s) ==> Occurrences(s, t) <= 1
    decreases |s|
  {
    if s != [] {
      var s' := s[..|s| - 1];
      OccurrencesSpec(s', t);
      assert s == s' + [s[|s| - 1]];
      if Distinct(s) {
        assert Distinct(s');
        assert s[|s| - 1] !in s';
      }
    }
  }
}
