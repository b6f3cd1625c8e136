/**
 * The head of a Montesinos stencil is a mixed-radix counter: slot i counts
 * from 0 up to the capacity `max(0, stencil_array[i] - 2 - page_exp)`, and
 * moving the head adds one to the lowest slot, carrying into the next slot
 * when a slot overflows. When every slot overflows the head is set to the
 * sentinel `stencil_array` and the stencil has no headroom left.
 *
 * `NextHead` states what one move does; `Rank` and `Radix` read the head as
 * a number so that the lemmas can state that the moves enumerate every
 * head position exactly once, `Radix` moves in all.
 */
module MontesinosHead {
  import opened Wrappers
  import Orm = MontesinosOrm

  /** Whether a move of the head found room (the stencil head states). */
  datatype HeadState = Headroom | NoHeadroom

  /** The capacity of a slot whose stencil entry is `entry`. */
  function Cap(entry: int, pageExp: nat): nat {
    if entry - 2 - pageExp > 0 then entry - 2 - pageExp else 0
  }

  function Caps(arr: seq<int>, pageExp: nat): (caps: seq<nat>)
    ensures |caps| == |arr|
    ensures forall i :: 0 <= i < |arr| ==> caps[i] == Cap(arr[i], pageExp)
  {
    seq(|arr|, i requires 0 <= i < |arr| => Cap(arr[i], pageExp))
  }

  /** Slot k can go up by one without exceeding its capacity. */
  predicate HasRoom(caps: seq<nat>, head: seq<int>, k: int)
    requires |caps| == |head|
  {
    0 <= k < |head| && head[k] + 1 <= caps[k]
  }

  function FirstRoomFrom(caps: seq<nat>, head: seq<int>, from: nat): (r: Option<nat>)
    requires |caps| == |head| && from <= |head|
    ensures r.Some? ==> from <= r.value < |head| && HasRoom(caps, head, r.value)
    ensures r.Some? ==> forall j :: from <= j < r.value ==> !HasRoom(caps, head, j)
    ensures r.None? ==> forall j :: from <= j < |head| ==> !HasRoom(caps, head, j)
    decreases |head| - from
  {
    if from == |head| then None
    else if HasRoom(caps, head, from) then Some(from)
    else FirstRoomFrom(caps, head, from + 1)
  }

  /** The lowest slot with room, if any. */
  function FirstRoom(caps: seq<nat>, head: seq<int>): (r: Option<nat>)
    requires |caps| == |head|
    ensures r.Some? ==> r.value < |head| && HasRoom(caps, head, r.value)
    ensures r.Some? ==> forall j :: 0 <= j < r.value ==> !HasRoom(caps, head, j)
    ensures r.None? ==> forall j :: 0 <= j < |head| ==> !HasRoom(caps, head, j)
  {
    FirstRoomFrom(caps, head, 0)
  }

  /** A slot with room and none below it is the lowest slot with room. */
  lemma {:induction false} FirstRoomFromIs(caps: seq<nat>, head: seq<int>, from: nat, k: nat)
    requires |caps| == |head| && from <= k && HasRoom(caps, head, k)
    requires forall j :: from <= j < k ==> !HasRoom(caps, head, j)
    ensures FirstRoomFrom(caps, head, from) == Some(k)
    decreases k - from
  {
    if from < k {
      FirstRoomFromIs(caps, head, from + 1, k);
    }
  }

  /** The head after slot k went up: the slots below k carried and are 0. */
  function Advanced(head: seq<int>, k: nat): seq<int>
    requires k < |head|
  {
    seq(|head|, i requires 0 <= i < |head| => if i < k then 0 else if i == k then head[i] + 1 else head[i])
  }

  /** One increment of the counter; None when every slot overflows. */
  function Step(caps: seq<nat>, head: seq<int>): (r: Option<seq<int>>)
    requires |caps| == |head|
    ensures r.Some? ==> |r.value| == |head|
  {
    match FirstRoom(caps, head)
    case None => None
    case Some(k) => Some(Advanced(head, k))
  }

  /** The new head and the head state one move of the head produces. */
  function NextHead(arr: seq<int>, head: seq<int>, pageExp: nat): (r: (seq<int>, HeadState))
    requires |head| == |arr|
    ensures |r.0| == |head|
    ensures r.1 == NoHeadroom ==> r.0 == arr
  {
    match Step(Caps(arr, pageExp), head)
    case Some(h) => (h, Headroom)
    case None => (arr, NoHeadroom)
  }

  /**
   * A move finds room iff some slot has room; then, with k the lowest such
   * slot, the slots below k become 0, slot k goes up by one and the later
   * slots keep their values. Otherwise the head becomes the stencil array.
   * The length of the head never changes.
   */
  lemma NextHeadCases(arr: seq<int>, head: seq<int>, pageExp: nat, k: nat)
    requires |head| == |arr|
    ensures |NextHead(arr, head, pageExp).0| == |head|
    ensures NextHead(arr, head, pageExp).1 == Headroom <==> exists j :: HasRoom(Caps(arr, pageExp), head, j)
    ensures NextHead(arr, head, pageExp).1 == NoHeadroom ==> NextHead(arr, head, pageExp).0 == arr
    ensures HasRoom(Caps(arr, pageExp), head, k) && (forall j :: 0 <= j < k ==> !HasRoom(Caps(arr, pageExp), head, j)) ==>
      var h := NextHead(arr, head, pageExp).0;
      NextHead(arr, head, pageExp).1 == Headroom && h[k] == head[k] + 1 &&
      (forall i :: 0 <= i < k ==> h[i] == 0) && (forall i :: k < i < |h| ==> h[i] == head[i])
  {
    var caps := Caps(arr, pageExp);
    if HasRoom(caps, head, k) && (forall j :: 0 <= j < k ==> !HasRoom(caps, head, j)) {
      FirstRoomFromIs(caps, head, 0, k);
    }
  }

  /** Moves the head of `s` by one page, in place. */
  method MoveHead(s: Orm.Stencil, pageExp: nat) returns (hs: HeadState)
    requires |s.head| == |s.stencilArray|
    modifies s
    ensures s.id == old(s.id) && s.stencilArray == old(s.stencilArray)
    ensures s.state == old(s.state) && s.openJobs == old(s.openJobs)
    ensures (s.head, hs) == NextHead(s.stencilArray, old(s.head), pageExp)
  {
    ghost var caps := Caps(s.stencilArray, pageExp);
    ghost var h0 := s.head;
    var overflow := true;
    var i := 0;
    while i < |s.stencilArray|
      invariant 0 <= i <= |s.stencilArray| == |s.head|
      invariant s.id == old(s.id) && s.stencilArray == old(s.stencilArray)
      invariant s.state == old(s.state) && s.openJobs == old(s.openJobs)
      invariant overflow
      invariant forall j :: 0 <= j < i ==> s.head[j] == 0 && !HasRoom(caps, h0, j)
      invariant forall j :: i <= j < |s.head| ==> s.head[j] == h0[j]
    {
      if overflow {
        s.head := s.head[i := s.head[i] + 1];
        overflow := false;
      }
      if Cap(s.stencilArray[i], pageExp) < s.head[i] {
        s.head := s.head[i := 0];
        overflow := true;
      } else {
        FirstRoomFromIs(caps, h0, 0, i);
        assert s.head == Advanced(h0, i);
        break;
      }
      i := i + 1;
    }
    if overflow {
      assert FirstRoom(caps, h0) == None;
      for j := 0 to |s.stencilArray|
        invariant |s.head| == |s.stencilArray|
        invariant s.id == old(s.id) && s.stencilArray == old(s.stencilArray)
        invariant s.state == old(s.state) && s.openJobs == old(s.openJobs)
        invariant forall m :: 0 <= m < j ==> s.head[m] == s.stencilArray[m]
      {
        s.head := s.head[j := s.stencilArray[j]];
      }
      assert s.head == s.stencilArray;
      return NoHeadroom;
    }
    return Headroom;
  }

  // ---------------------------------------------------------------------
  // The head read as a number.

  /** The value of the head, slot 0 being the lowest digit. */
  function Rank(caps: seq<nat>, head: seq<int>): int
    requires |caps| == |head|
  {
    if |head| == 0 then 0 else head[0] + (caps[0] + 1) * Rank(caps[1..], head[1..])
  }

  /** The number of head positions: the product of `cap + 1` over the slots. */
  function Radix(caps: seq<nat>): (r: nat)
    ensures r >= 1
  {
    if |caps| == 0 then 1 else (caps[0] + 1) * Radix(caps[1..])
  }

  /** Every slot lies within 0 and its capacity. */
  predicate InRange(caps: seq<nat>, head: seq<int>) {
    |caps| == |head| && forall i :: 0 <= i < |head| ==> 0 <= head[i] <= caps[i]
  }

  function Zeros(n: nat): (z: seq<int>)
    ensures |z| == n && forall i :: 0 <= i < n ==> z[i] == 0
  {
    seq(n, i => 0)
  }

  /** A head in range has a value below `Radix`. */
  lemma {:induction false} RankBounds(caps: seq<nat>, head: seq<int>)
    requires InRange(caps, head)
    ensures 0 <= Rank(caps, head) < Radix(caps)
  {
    if |head| > 0 {
      assert InRange(caps[1..], head[1..]);
      RankBounds(caps[1..], head[1..]);
      DigitBounds(head[0], caps[0], Rank(caps[1..], head[1..]), Radix(caps[1..]));
    }
  }

  /** A digit below `c + 1` followed by a value below `rt` makes a value below `(c + 1) * rt`. */
  lemma DigitBounds(d: int, c: nat, r: int, rt: nat)
    requires 0 <= d <= c && 0 <= r < rt
    ensures 0 <= d + (c + 1) * r < (c + 1) * rt
  {
    assert (c + 1) * r <= (c + 1) * (rt - 1);
  }

  /** The all-zero head has value 0. */
  lemma {:induction false} RankZeros(caps: seq<nat>)
    ensures Rank(caps, Zeros(|caps|)) == 0
  {
    if |caps| > 0 {
      assert Zeros(|caps|)[1..] == Zeros(|caps| - 1);
      RankZeros(caps[1..]);
    }
  }

  /** The full head, every slot at its capacity, has the largest value. */
  lemma {:induction false} RankFull(caps: seq<nat>, head: seq<int>)
    requires |caps| == |head| && forall i :: 0 <= i < |head| ==> head[i] == caps[i]
    ensures Rank(caps, head) == Radix(caps) - 1
  {
    if |head| > 0 {
      RankFull(caps[1..], head[1..]);
      var c, rt := caps[0], Radix(caps[1..]);
      assert c + (c + 1) * (rt - 1) == (c + 1) * rt - 1;
    }
  }

  /**
   * The counter read recursively: slot 0 goes up if it has room, and
   * otherwise becomes 0 and carries into the rest of the head.
   */
  lemma StepUnfold(caps: seq<nat>, head: seq<int>)
    requires |caps| == |head| > 0
    ensures HasRoom(caps, head, 0) ==> Step(caps, head) == Some([head[0] + 1] + head[1..])
    ensures !HasRoom(caps, head, 0) ==>
      Step(caps, head) == match Step(caps[1..], head[1..])
                          case None => None
                          case Some(t) => Some([0] + t)
  {
    var ct, ht := caps[1..], head[1..];
    if HasRoom(caps, head, 0) {
      assert FirstRoom(caps, head) == Some(0);
      assert Advanced(head, 0) == [head[0] + 1] + head[1..];
    } else {
      var r, rt := FirstRoom(caps, head), FirstRoom(ct, ht);
      forall j | 0 <= j < |ht|
        ensures HasRoom(ct, ht, j) <==> HasRoom(caps, head, j + 1)
      {
      }
      if rt.None? {
        assert forall j :: 0 <= j < |head| ==> !HasRoom(caps, head, j) by {
          forall j | 1 <= j < |head|
            ensures !HasRoom(caps, head, j)
          {
            assert !HasRoom(ct, ht, j - 1);
          }
        }
        assert r.None?;
      } else {
        var k := rt.value;
        forall j | 1 <= j < k + 1
          ensures !HasRoom(caps, head, j)
        {
          assert !HasRoom(ct, ht, j - 1);
        }
        FirstRoomFromIs(caps, head, 0, k + 1);
        assert Advanced(head, k + 1) == [0] + Advanced(ht, k);
      }
    }
  }

  /** A move that finds room keeps the head in range and adds exactly one to its value. */
  lemma {:induction false} StepRank(caps: seq<nat>, head: seq<int>)
    requires InRange(caps, head) && Step(caps, head).Some?
    ensures InRange(caps, Step(caps, head).value)
    ensures Rank(caps, Step(caps, head).value) == Rank(caps, head) + 1
  {
    var h := Step(caps, head).value;
    StepUnfold(caps, head);
    var c, ct, ht := caps[0], caps[1..], head[1..];
    if HasRoom(caps, head, 0) {
      assert h[1..] == ht;
    } else {
      var t := Step(ct, ht).value;
      assert InRange(ct, ht);
      StepRank(ct, ht);
      assert h[1..] == t;
      assert head[0] == c;
      assert (c + 1) * (Rank(ct, ht) + 1) == (c + 1) * Rank(ct, ht) + c + 1;
    }
  }

  /** In range, a move finds no room exactly when the head has the largest value. */
  lemma StepNoneIffMax(caps: seq<nat>, head: seq<int>)
    requires InRange(caps, head)
    ensures Step(caps, head).None? <==> Rank(caps, head) == Radix(caps) - 1
  {
    if Step(caps, head).None? {
      assert FirstRoom(caps, head).None?;
      forall i | 0 <= i < |head|
        ensures head[i] == caps[i]
      {
        assert !HasRoom(caps, head, i);
      }
      RankFull(caps, head);
    } else {
      StepRank(caps, head);
      RankBounds(caps, Step(caps, head).value);
    }
  }

  /** `n` moves in a row; None once a move finds no room. */
  function Iterate(caps: seq<nat>, head: seq<int>, n: nat): (r: Option<seq<int>>)
    requires |caps| == |head|
    ensures r.Some? ==> |r.value| == |head|
    decreases n
  {
    if n == 0 then Some(head)
    else match Step(caps, head)
      case None => None
      case Some(h) => Iterate(caps, h, n - 1)
  }

  lemma {:induction false} IterateRank(caps: seq<nat>, head: seq<int>, n: nat)
    requires InRange(caps, head) && Rank(caps, head) + n < Radix(caps)
    ensures Iterate(caps, head, n).Some?
    ensures InRange(caps, Iterate(caps, head, n).value)
    ensures Rank(caps, Iterate(caps, head, n).value) == Rank(caps, head) + n
    decreases n
  {
    if n > 0 {
      StepNoneIffMax(caps, head);
      StepRank(caps, head);
      IterateRank(caps, Step(caps, head).value, n - 1);
    }
  }

  /**
   * The odometer: from the all-zero head, the first `Radix - 1` moves find
   * room, each reaching a new head in range, and the move after them finds
   * none and sets the head to the stencil array. So exactly `Radix` moves
   * are made before the stencil runs out of headroom.
   */
  lemma Odometer(arr: seq<int>, pageExp: nat, n: nat)
    requires n < Radix(Caps(arr, pageExp))
    ensures var caps := Caps(arr, pageExp);
      var h := Iterate(caps, Zeros(|arr|), n);
      h.Some? && InRange(caps, h.value) && Rank(caps, h.value) == n &&
      (NextHead(arr, h.value, pageExp).1 == Headroom <==> n + 1 < Radix(caps)) &&
      (n + 1 < Radix(caps) ==> Some(NextHead(arr, h.value, pageExp).0) == Iterate(caps, Zeros(|arr|), n + 1)) &&
      (n + 1 == Radix(caps) ==> NextHead(arr, h.value, pageExp) == (arr, NoHeadroom))
  {
    var caps := Caps(arr, pageExp);
    RankZeros(caps);
    IterateRank(caps, Zeros(|arr|), n);
    var h := Iterate(caps, Zeros(|arr|), n).value;
    StepNoneIffMax(caps, h);
    IterateSplit(caps, Zeros(|arr|), n);
  }

  /** Taking one more move after `n` moves. */
  lemma {:induction false} IterateSplit(caps: seq<nat>, head: seq<int>, n: nat)
    requires |caps| == |head| && Iterate(caps, head, n).Some?
    ensures Iterate(caps, head, n + 1) == Step(caps, Iterate(caps, head, n).value)
    decreases n
  {
    if n > 0 {
      IterateSplit(caps, Step(caps, head).value, n - 1);
    }
  }
}
