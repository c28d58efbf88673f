/**
 * Per-process syscall bans: three bits of one byte in every task, set by root for itself and
 * flipped along the chain of ancestors.
 */
module SyscallBans {

  const EPERM := 1
  const ESRCH := 3
  const EINVAL := 22

  const BAN_GETPID: bv8 := 1
  const BAN_PIPE: bv8 := 2
  const BAN_KILL: bv8 := 4

  datatype Option<T> = None | Some(value: T)

  /** `ban_char_to_mask` */
  function Mask(ban: char): (m: Option<bv8>)
    ensures m.Some? <==> ban in "gpk"
    ensures m.Some? ==> m.value in {BAN_GETPID, BAN_PIPE, BAN_KILL}
    ensures ban == 'g' <==> m == Some(1)
    ensures ban == 'p' <==> m == Some(2)
    ensures ban == 'k' <==> m == Some(4)
  {
    if ban == 'g' then Some(BAN_GETPID)
    else if ban == 'p' then Some(BAN_PIPE)
    else if ban == 'k' then Some(BAN_KILL)
    else None
  }

  predicate Banned(bans: bv8, mask: bv8) {
    bans & mask != 0
  }

  function Flip(bans: bv8, mask: bv8): bv8 {
    bans ^ mask
  }

  /** One flip turns the one bit over and leaves the others; two flips undo each other. */
  lemma FlipBit(bans: bv8, mask: bv8)
    requires mask in {BAN_GETPID, BAN_PIPE, BAN_KILL}
    ensures Banned(Flip(bans, mask), mask) <==> !Banned(bans, mask)
    ensures Flip(bans, mask) & !mask == bans & !mask
    ensures Flip(Flip(bans, mask), mask) == bans
  {}

  class Task {
    var bans: bv8
    var parent: Task?
    const isRootUser: bool

    constructor (parent: Task?, isRootUser: bool)
      ensures this.parent == parent && this.isRootUser == isRootUser && bans == 0
    {
      this.parent, this.isRootUser, this.bans := parent, isRootUser, 0;
    }

    /** `sys_set_ban` */
    method SetBan(getpid: int, pipe: int, kill: int) returns (r: int)
      modifies `bans
      ensures r == if getpid < 0 || pipe < 0 || kill < 0 then -EINVAL else if !isRootUser then -EPERM else 0
      ensures r != 0 ==> bans == old(bans)
      ensures r == 0 ==>
                && (Banned(bans, BAN_GETPID) <==> getpid > 0)
                && (Banned(bans, BAN_PIPE) <==> pipe > 0)
                && (Banned(bans, BAN_KILL) <==> kill > 0)
                && bans & 0xF8 == 0
    {
      if getpid < 0 || pipe < 0 || kill < 0 {
        return -EINVAL;
      }
      if !isRootUser {
        return -EPERM;
      }
      var g := if getpid > 1 then 1 else getpid;
      var p := if pipe > 1 then 1 else pipe;
      var k := if kill > 1 then 1 else kill;
      bans := (if g != 0 then BAN_GETPID else 0) | (if p != 0 then BAN_PIPE else 0) | (if k != 0 then BAN_KILL else 0);
      return 0;
    }

    /** `sys_get_ban` */
    method GetBan(ban: char) returns (r: int)
      ensures r == -EINVAL <==> ban !in "gpk"
      ensures ban in "gpk" ==> r == if Banned(bans, Mask(ban).value) then 1 else 0
    {
      var mask := Mask(ban);
      if mask.None? {
        return -EINVAL;
      }
      return if bans & mask.value != 0 then 1 else 0;
    }

    /** `sys_check_ban`, with the task that the pid lookup found. */
    method CheckBan(target: Task?, ban: char) returns (r: int)
      ensures r == if ban !in "gpk" then -EINVAL
                   else if target == null then -ESRCH
                   else if Banned(bans, Mask(ban).value) then -EPERM
                   else if Banned(target.bans, Mask(ban).value) then 1 else 0
    {
      var mask := Mask(ban);
      if mask.None? {
        return -EINVAL;
      }
      if target == null {
        return -ESRCH;
      }
      if bans & mask.value != 0 {
        return -EPERM;
      }
      return if target.bans & mask.value != 0 then 1 else 0;
    }
  }

  /** What root sets is what `sys_get_ban` then reports, letter by letter. */
  method SetThenGet(t: Task, getpid: int, pipe: int, kill: int) returns (r: int, g: int, p: int, k: int)
    modifies t`bans
    ensures r == 0 <==> getpid >= 0 && pipe >= 0 && kill >= 0 && t.isRootUser
    ensures r == 0 ==>
              && g == (if getpid > 0 then 1 else 0)
              && p == (if pipe > 0 then 1 else 0)
              && k == (if kill > 0 then 1 else 0)
    ensures r != 0 ==> t.bans == old(t.bans)
  {
    r := t.SetBan(getpid, pipe, kill);
    g := t.GetBan('g');
    p := t.GetBan('p');
    k := t.GetBan('k');
  }

  // ---------- The chain of ancestors ----------

  /** `line` runs from a task through its ancestors to the top, which is its own parent or has none. */
  ghost predicate Line(line: seq<Task>, current: Task)
    reads line`parent
  {
    && line != [] && line[0] == current
    && (forall i, j :: 0 <= i < j < |line| ==> line[i] != line[j])
    && (forall i :: 0 <= i < |line| - 1 ==> line[i].parent == line[i + 1])
    && (line[|line| - 1].parent == line[|line| - 1] || line[|line| - 1].parent == null)
  }

  /** Only at the top can a task on the line be its own parent. */
  lemma StopsAtTop(line: seq<Task>, current: Task, i: nat)
    requires Line(line, current) && i < |line|
    ensures i + 1 < |line| && line[i + 1].parent == line[i + 1] ==> i + 2 == |line|
    ensures i + 1 == |line| && line[i].parent != null ==> line[i].parent == line[i]
  {
    if i + 2 < |line| {
      assert line[i + 1].parent == line[i + 2] && line[i + 1] != line[i + 2];
    }
  }

  /** The loop of `sys_flip_ban_branch`. */
  method FlipAncestors(current: Task, height: nat, mask: bv8, ghost line: seq<Task>) returns (count: nat)
    requires Line(line, current) && mask in {BAN_GETPID, BAN_PIPE, BAN_KILL}
    modifies line`bans
    ensures forall i :: 0 <= i < |line| ==>
              line[i].bans == if 1 <= i <= height && line[i].parent != line[i] then Flip(old(line[i].bans), mask)
                              else old(line[i].bans)
    ensures count == |set i | 1 <= i < |line| && i <= height && line[i].parent != line[i] && Banned(line[i].bans, mask)|
  {
    hide Banned, Flip;
    count := 0;
    ghost var banned: set<int> := {};
    var proc := current.parent;
    var i := 0;
    while i < height
      invariant i <= height && i < |line| && Line(line, current)
      invariant proc == if i + 1 < |line| then line[i + 1] else line[i].parent
      invariant forall j :: 1 <= j <= i ==> line[j].parent != line[j]
      invariant forall j :: 0 <= j < |line| ==>
                  line[j].bans == if 1 <= j <= i then Flip(old(line[j].bans), mask) else old(line[j].bans)
      invariant forall j :: j in banned <==> 1 <= j <= i && Banned(line[j].bans, mask)
      invariant count == |banned|
    {
      StopsAtTop(line, current, i);
      if proc == null || proc == proc.parent {
        break;
      }
      proc.bans := Flip(proc.bans, mask);
      if Banned(proc.bans, mask) {
        count := count + 1;
        banned := banned + {i + 1};
      }
      proc := proc.parent;
      i := i + 1;
    }
    BannedIs(line, height, mask, i, banned);
  }

  lemma BannedIs(line: seq<Task>, height: nat, mask: bv8, last: nat, banned: set<int>)
    requires last <= height && last < |line| && forall j :: 1 <= j <= last ==> line[j].parent != line[j]
    requires last == height || last + 1 == |line| || (last + 2 == |line| && line[last + 1].parent == line[last + 1])
    requires forall j :: j in banned <==> 1 <= j <= last && Banned(line[j].bans, mask)
    ensures banned
         == set j | 1 <= j < |line| && j <= height && line[j].parent != line[j] && Banned(line[j].bans, mask)
    ensures forall j :: 1 <= j < |line| && j <= height && line[j].parent != line[j] <==> 1 <= j <= last
  {
    hide Banned;
  }

  /**
   * `sys_flip_ban_branch`: flips the bit in the nearest `height` ancestors that are not their own
   * parent, and nowhere else, and returns how many of them it banned.
   */
  method FlipBanBranch(current: Task, height: int, ban: char, ghost line: seq<Task>) returns (r: int)
    requires Line(line, current)
    modifies line`bans
    ensures height <= 0 || ban !in "gpk" ==> r == -EINVAL
    ensures height > 0 && ban in "gpk" ==> if Banned(old(current.bans), Mask(ban).value) then r == -EPERM else r >= 0
    ensures r < 0 ==> forall i :: 0 <= i < |line| ==> line[i].bans == old(line[i].bans)
    ensures r >= 0 ==> forall i :: 0 <= i < |line| ==>
              line[i].bans == if 1 <= i <= height && line[i].parent != line[i]
                              then Flip(old(line[i].bans), Mask(ban).value) else old(line[i].bans)
    ensures r >= 0 ==>
              r == |set i | 1 <= i < |line| && i <= height && line[i].parent != line[i]
                            && Banned(line[i].bans, Mask(ban).value)|
  {
    hide Line;
    if height <= 0 {
      return -EINVAL;
    }
    var mask := Mask(ban);
    if mask.None? {
      return -EINVAL;
    }
    if Banned(current.bans, mask.value) {
      return -EPERM;
    }
    r := FlipAncestors(current, height, mask.value, line);
  }

  /** Of two consecutive flips exactly one bans a task, and together they change nothing. */
  lemma FlipsAlternate(b0: seq<bv8>, b1: seq<bv8>, b2: seq<bv8>, visited: set<int>, mask: bv8)
    requires mask in {BAN_GETPID, BAN_PIPE, BAN_KILL} && |b0| == |b1| == |b2|
    requires forall i :: i in visited ==> 1 <= i < |b0|
    requires forall i :: 0 <= i < |b0| ==> b1[i] == if i in visited then Flip(b0[i], mask) else b0[i]
    requires forall i :: 0 <= i < |b0| ==> b2[i] == if i in visited then Flip(b1[i], mask) else b1[i]
    ensures b2 == b0
    ensures |set i | i in visited && Banned(b1[i], mask)| + |set i | i in visited && Banned(b2[i], mask)| == |visited|
  {
    hide Flip, Banned;
    var first, second := set i | i in visited && Banned(b1[i], mask), set i | i in visited && Banned(b2[i], mask);
    forall i | 0 <= i < |b0|
      ensures b2[i] == b0[i]
      ensures i in visited ==> (i in first <==> i !in second)
    {
      FlipBit(b0[i], mask);
    }
    assert first !! second && first + second == visited;
  }

  ghost function BansOf(line: seq<Task>): (b: seq<bv8>)
    reads line
    ensures |b| == |line| && forall i :: 0 <= i < |line| ==> b[i] == line[i].bans
  {
    seq(|line|, i requires 0 <= i < |line| reads line => line[i].bans)
  }

  /** A successful call, in terms of the ancestors visited. */
  method FlipVisited(current: Task, height: int, ban: char, ghost line: seq<Task>, ghost visited: set<int>)
    returns (r: int)
    requires Line(line, current)
    requires height > 0 && ban in "gpk" && !Banned(current.bans, Mask(ban).value)
    requires visited == set i | 1 <= i < |line| && i <= height && line[i].parent != line[i]
    modifies line`bans
    ensures forall i :: 0 <= i < |line| ==>
              line[i].bans == if i in visited then Flip(old(line[i].bans), Mask(ban).value) else old(line[i].bans)
    ensures visited == set i | 1 <= i < |line| && i <= height && line[i].parent != line[i]
    ensures r == |set i | i in visited && Banned(BansOf(line)[i], Mask(ban).value)|
  {
    hide Mask, Banned, Flip, BansOf, Line;
    r := FlipBanBranch(current, height, ban, line);
    assert forall i :: 0 <= i < |line| ==> line[i].parent == old(line[i].parent);
    assert visited == set i | 1 <= i < |line| && i <= height && line[i].parent != line[i];
    SameVisited(line, height, Mask(ban).value, visited, BansOf(line));
  }

  /**
   * Two identical successful calls, with nothing in between, restore every ban byte, and their
   * results add up to the number of ancestors visited.
   */
  method FlipTwice(current: Task, height: int, ban: char, ghost line: seq<Task>) returns (first: int, second: int)
    requires Line(line, current)
    requires height > 0 && ban in "gpk" && !Banned(current.bans, Mask(ban).value)
    modifies line`bans
    ensures forall i :: 0 <= i < |line| ==> line[i].bans == old(line[i].bans)
    ensures first >= 0 && second >= 0
    ensures first + second == |set i | 1 <= i < |line| && i <= height && line[i].parent != line[i]|
  {
    hide Mask, Banned, Flip, BansOf, Line;
    LineStart(line, current);
    ghost var visited := set i | 1 <= i < |line| && i <= height && line[i].parent != line[i];
    ghost var b0 := BansOf(line);
    first := FlipVisited(current, height, ban, line, visited);
    ghost var b1 := BansOf(line);
    second := FlipVisited(current, height, ban, line, visited);
    FlipsAlternate(b0, b1, BansOf(line), visited, Mask(ban).value);
  }

  lemma LineStart(line: seq<Task>, current: Task)
    requires Line(line, current)
    ensures line != [] && line[0] == current
  {}

  lemma SameVisited(line: seq<Task>, height: int, mask: bv8, visited: set<int>, b: seq<bv8>)
    requires visited == set i | 1 <= i < |line| && i <= height && line[i].parent != line[i]
    requires |b| == |line| && forall i :: 0 <= i < |line| ==> b[i] == line[i].bans
    ensures (set i | i in visited && Banned(b[i], mask))
         == set i | 1 <= i < |line| && i <= height && line[i].parent != line[i] && Banned(line[i].bans, mask)
  {}
}
