/** Last-writer-wins entries and the order that decides between them: src/aries/memory/store.py lines 97-145. */
module Entries {
  import opened Wrappers

  /** A register entry. value is the canonical JSON text of the stored value. */
  datatype Entry = Entry(value: string, timestamp: nat, device: string, wallClock: int, hash: string, ttl: Option<int>) {

    /** LWWEntry.is_expired, at the instant now */
    predicate Expired(now: int) { ttl.Some? && now > wallClock + ttl.value }

    /** LWWEntry.supersedes */
    predicate Supersedes(other: Entry) {
      if timestamp != other.timestamp then timestamp > other.timestamp else StringLess(other.device, device)
    }

    predicate SameStamp(other: Entry) { timestamp == other.timestamp && device == other.device }
  }

  /** The comparison of strings by code points. */
  predicate StringLess(s: string, t: string) {
    if t == "" then false
    else if s == "" then true
    else if s[0] != t[0] then s[0] < t[0]
    else StringLess(s[1..], t[1..])
  }

  lemma {:induction false} StringLessTrichotomy(s: string, t: string)
    ensures !StringLess(s, s)
    ensures StringLess(s, t) || s == t || StringLess(t, s)
  {
    if s != "" {
      StringLessTrichotomy(s[1..], if t == "" then t else t[1..]);
      assert s == [s[0]] + s[1..];
    }
    if t != "" {
      assert t == [t[0]] + t[1..];
    }
  }

  lemma {:induction false} StringLessTransitive(s: string, t: string, u: string)
    requires StringLess(s, t) && StringLess(t, u)
    ensures StringLess(s, u)
  {
    if s != "" && s[0] == t[0] && t[0] == u[0] {
      StringLessTransitive(s[1..], t[1..], u[1..]);
    }
  }

  /** s comes before t: they first differ where s has the smaller code point, or s is a proper prefix of t. */
  ghost predicate Precedes(s: string, t: string) {
    exists i: nat :: i <= |s| && i < |t| && s[..i] == t[..i] && (i == |s| || s[i] < t[i])
  }

  lemma {:induction false} StringLessExactly(s: string, t: string)
    ensures StringLess(s, t) <==> Precedes(s, t)
  {
    if t != "" && s != "" && s[0] == t[0] {
      StringLessExactly(s[1..], t[1..]);
      if Precedes(s[1..], t[1..]) {
        var i: nat :| i <= |s| - 1 && i < |t| - 1 && s[1..][..i] == t[1..][..i] && (i == |s| - 1 || s[1..][i] < t[1..][i]);
        assert s[..i + 1] == [s[0]] + s[1..][..i] && t[..i + 1] == [t[0]] + t[1..][..i];
      }
      if Precedes(s, t) {
        var i: nat :| i <= |s| && i < |t| && s[..i] == t[..i] && (i == |s| || s[i] < t[i]);
        assert s[1..][..i - 1] == s[..i][1..] && t[1..][..i - 1] == t[..i][1..];
      }
    } else if t != "" && (s == "" || s[0] < t[0]) {
      assert s[..0] == t[..0];
    } else if t != "" {
      assert forall i: nat :: 0 < i <= |s| && i < |t| ==> s[..i][0] == s[0] && t[..i][0] == t[0];
    }
  }

  /** The later timestamp wins, and at equal timestamps the DID that comes last. */
  lemma SupersedesExactly(a: Entry, b: Entry)
    ensures a.Supersedes(b) <==>
            a.timestamp > b.timestamp || (a.timestamp == b.timestamp && Precedes(b.device, a.device))
  {
    StringLessExactly(b.device, a.device);
  }

  /** Supersedes is a strict order that is total up to equal stamps. */
  lemma SupersedesTransitive(a: Entry, b: Entry, c: Entry)
    requires a.Supersedes(b) && b.Supersedes(c)
    ensures a.Supersedes(c)
  {
    if a.timestamp == c.timestamp {
      StringLessTransitive(c.device, b.device, a.device);
    }
  }

  lemma SupersedesTotal(a: Entry, b: Entry)
    ensures !a.Supersedes(a)
    ensures !(a.Supersedes(b) && b.Supersedes(a))
    ensures a.Supersedes(b) || b.Supersedes(a) <==> !a.SameStamp(b)
  {
    StringLessTrichotomy(a.device, b.device);
    StringLessTrichotomy(b.device, a.device);
    if a.Supersedes(b) && b.Supersedes(a) {
      StringLessTransitive(a.device, b.device, a.device);
    }
  }
}
