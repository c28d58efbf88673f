/**
 * The growing buffer of the server log, as the writer that holds the lock changes it in place, and
 * its agreement with the steps that the lock protocol interleaves.
 */
module ServerLog {

  import opened LogLock
  import opened Sizes

  lemma TextWritten(data: Text, at: nat, entry: Text)
    requires at + |entry| < |data|
    ensures var r := Put(data, at, entry)[at + |entry| := '\0'];
            r == Put(Put(data, at, entry), at + |entry|, ['\0']) && r[..at + |entry|] == data[..at] + entry
  {}

  class Log {
    var data: array<char>
    var len: nat
    var capacity: nat

    ghost predicate Valid()
      reads this, data
    {
      capacity == data.Length && len < capacity && data[len] == '\0'
    }

    /** The logged text, without its terminator. */
    ghost function Contents(): Text
      reads this, data
      requires Valid()
    {
      data[..len]
    }

    /** `log_init` */
    constructor ()
      ensures Valid() && fresh(data) && Contents() == [] && capacity == LOG_INIT_CAP
    {
      data := new char[LOG_INIT_CAP];
      len, capacity := 0, LOG_INIT_CAP;
      new;
      data[0] := '\0';
    }

    /** `Realloc` to `size` bytes: the old bytes stay, the new ones are arbitrary. */
    method Realloc(size: nat)
      requires size >= data.Length
      modifies `data
      ensures fresh(data) && data.Length == size && data[..old(data.Length)] == old(data[..])
    {
      var bigger := new char[size];
      forall i | 0 <= i < data.Length {
        bigger[i] := data[i];
      }
      data := bigger;
    }

    /** The doubling loop of `log_write`; `fill` is what the growing added. */
    method Grow(need: nat) returns (ghost fill: Text)
      requires Valid()
      modifies `data, `capacity
      ensures capacity == data.Length == Doubled(old(capacity), need) && data[..] == old(data[..]) + fill
      ensures exists k: nat :: capacity == old(capacity) * Pow2(k)
      ensures capacity >= need && (capacity == old(capacity) || capacity < 2 * need)
      ensures data == old(data) || fresh(data)
    {
      ghost var before := data[..];
      DoubledTimes(capacity, need);
      while need > capacity
        invariant 0 < capacity == data.Length && |before| <= capacity && data[..|before|] == before
        invariant Doubled(capacity, need) == Doubled(old(capacity), need)
        invariant data == old(data) || fresh(data)
        decreases need - capacity
      {
        capacity := capacity * 2;
        Realloc(capacity);
      }
      fill := data[|before|..];
    }

    /** The `memcpy` of `log_write`. */
    method CopyIn(entry: Text)
      requires len + |entry| <= data.Length
      modifies data
      ensures data[..] == Put(old(data[..]), len, entry)
    {
      forall i | 0 <= i < |entry| {
        data[len + i] := entry[i];
      }
    }

    /**
     * The body of `log_write`: the entry ends up behind the old text, terminated, in a buffer that
     * was doubled no more often than needed.
     */
    method Write(entry: Text) returns (ghost fill: Text)
      requires Valid()
      modifies this, data
      ensures Valid() && Contents() == old(Contents()) + entry
      ensures capacity == Doubled(old(capacity), old(len) + |entry| + 1) == |old(data[..])| + |fill|
      ensures data[..] == Put(Put(old(data[..]) + fill, old(len), entry), len, ['\0'])
      ensures data == old(data) || fresh(data)
    {
      hide Doubled, Put;
      var elen := |entry|;
      fill := Grow(len + elen + 1);
      ghost var grown := data[..];
      CopyIn(entry);
      ghost var copied := data[..];
      len := len + elen;
      data[len] := '\0';
      assert data[..] == copied[len := '\0'];
      TextWritten(grown, old(len), entry);
      assert data[..len] == data[..][..len];
      assert grown[..old(len)] == old(data[..])[..old(len)] == old(Contents());
    }

    /** The body of `log_read`: a new buffer with the text and its terminator. */
    method Read() returns (out: array<char>, n: nat)
      requires Valid()
      ensures fresh(out) && n == |Contents()| && out[..] == Contents() + ['\0']
    {
      n := len;
      out := new char[n + 1];
      forall i | 0 <= i < n + 1 {
        out[i] := data[i];
      }
    }
  }

  /**
   * The four steps of a writer in the lock protocol, run one after the other, leave the buffer that
   * `Log.Write` leaves.
   */
  lemma StepsWrite(s: State, t: nat, entry: Text, fill: Text)
    requires t in s.phase && 0 <= s.len && s.len + |entry| + 1 <= |s.data| + |fill|
    ensures var s1 := BodyStep(s, t, entry, Entered, fill);
            var s2 := BodyStep(s1, t, entry, Grown, []);
            var s3 := BodyStep(s2, t, entry, Copied, []);
            var s4 := BodyStep(s3, t, entry, Advanced, []);
            && s4.data == Put(Put(s.data + fill, s.len, entry), s.len + |entry|, ['\0'])
            && s4.len == s.len + |entry| && s4.phase == s.phase[t := Writing(entry, Terminated)]
  {}

  /** The two steps of a reader note the length, then copy that many bytes and the terminator. */
  lemma StepsRead(s: State, t: nat)
    requires t in s.phase && 0 <= s.len < |s.data|
    ensures var s1 := LookStep(s, t, Opened);
            var s2 := LookStep(s1, t, Measured(s.len));
            && s1 == s.(phase := s.phase[t := Reading(Measured(s.len))])
            && s2 == s.(phase := s.phase[t := Reading(Taken(s.data[..s.len + 1]))])
  {
    assert s.phase[t := Reading(Measured(s.len))][t := Reading(Taken(s.data[..s.len + 1]))]
        == s.phase[t := Reading(Taken(s.data[..s.len + 1]))];
  }
}
