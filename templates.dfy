/** The list of recently used custom durations (src/services/templates.ts). */
module Templates {
  import opened Wrappers
  import opened Constants

  predicate NoDuplicates(s: seq<int>) {
    forall i, j :: 0 <= i < j < |s| ==> s[i] != s[j]
  }

  lemma NoDuplicatesCons(x: int, s: seq<int>)
    ensures x !in s && NoDuplicates(s) ==> NoDuplicates([x] + s)
  {
    if x !in s && NoDuplicates(s) {
      forall i, j | 0 < i < j < |s| + 1 ensures ([x] + s)[i] != ([x] + s)[j] {
        assert ([x] + s)[i] == s[i - 1] && ([x] + s)[j] == s[j - 1];
      }
    }
  }

  /** `existing.filter((x) => x !== d)`. */
  function Without(s: seq<int>, d: int): (r: seq<int>)
    ensures d !in r && |r| <= |s|
    ensures forall x :: x in r <==> x in s && x != d
    ensures d !in s ==> r == s
    ensures NoDuplicates(s) ==> NoDuplicates(r)
  {
    if s == [] then []
    else
      var rest := Without(s[1..], d);
      assert d !in s ==> s == [s[0]] + s[1..];
      if s[0] == d then rest
      else
        assert NoDuplicates(s) ==> forall j :: 0 <= j < |s| - 1 ==> s[1..][j] != s[0];
        assert NoDuplicates(s) ==> s[0] !in rest && NoDuplicates(s[1..]);
        NoDuplicatesCons(s[0], rest);
        [s[0]] + rest
  }

  /** The filter keeps the order of what it keeps: it distributes over
      concatenation, and on one entry keeps it exactly when it is not `d`. */
  lemma {:induction false} WithoutAppend(a: seq<int>, b: seq<int>, d: int)
    ensures Without(a + b, d) == Without(a, d) + Without(b, d)
  {
    if a == [] {
      assert a + b == b;
    } else {
      assert (a + b)[0] == a[0] && (a + b)[1..] == a[1..] + b;
      WithoutAppend(a[1..], b, d);
    }
  }

  lemma WithoutOne(x: int, d: int)
    ensures Without([x], d) == (if x == d then [] else [x])
  {
  }

  /** `[d, ...existing.filter((x) => x !== d)].slice(0, MAX_RECENT_DURATIONS)`:
      `d` moves to the front and occurs once, the others keep their order, and
      the list is cut to its first five entries. */
  function WithRecent(existing: seq<int>, d: int): (r: seq<int>)
    ensures 1 <= |r| <= MAX_RECENT_DURATIONS && r[0] == d
    ensures multiset(r)[d] == 1
    ensures var full := [d] + Without(existing, d);
      |r| == (if |full| < MAX_RECENT_DURATIONS then |full| else MAX_RECENT_DURATIONS) &&
      r == full[..|r|]
    ensures NoDuplicates(existing) ==> NoDuplicates(r)
  {
    var w := Without(existing, d);
    var k := if |w| < MAX_RECENT_DURATIONS - 1 then |w| else MAX_RECENT_DURATIONS - 1;
    var r := [d] + w[..k];
    assert d !in w[..k] by {
      forall x | x in w[..k] ensures x in w { }
    }
    assert multiset(r)[d] == 1 + multiset(w[..k])[d];
    assert ([d] + w)[..k + 1] == r;
    r
  }

  /** Adding the same duration twice gives the list adding it once gives. */
  lemma {:induction false} WithRecentIdempotent(existing: seq<int>, d: int)
    ensures WithRecent(WithRecent(existing, d), d) == WithRecent(existing, d)
  {
    var r := WithRecent(existing, d);
    var w := Without(existing, d);
    var k := |r| - 1;
    assert r == [d] + w[..k];
    assert d !in w[..k] by {
      forall x | x in w[..k] ensures x in w { }
    }
    WithoutFront(w[..k], d);
  }

  lemma WithoutFront(t: seq<int>, d: int)
    requires d !in t
    ensures Without([d] + t, d) == t
  {
    assert ([d] + t)[1..] == t;
  }

  /** The stored recent-durations document; `durations` may be missing. */
  datatype RecentDoc = RecentDoc(durations: Option<seq<int>>)

  /** `getRecentDurations` on the stored document: `[]` without a document
      or without a list in it. */
  function ReadRecent(doc: Option<RecentDoc>): (r: seq<int>)
    ensures doc.None? ==> r == []
    ensures doc.Some? && doc.value.durations.None? ==> r == []
    ensures doc.Some? && doc.value.durations.Some? ==> r == doc.value.durations.value
  {
    match doc
    case None => []
    case Some(RecentDoc(ds)) => match ds case Some(l) => l case None => []
  }

  /** The recent-durations document of one user. */
  class RecentDurationsStore {
    var doc: Option<RecentDoc>

    constructor (initial: Option<RecentDoc>)
      ensures doc == initial
    {
      doc := initial;
    }

    function GetRecentDurations(): seq<int>
      reads this
    {
      ReadRecent(doc)
    }

    /** `addRecentDuration`: stores and returns the updated list. */
    method AddRecentDuration(d: int) returns (r: seq<int>)
      modifies this
      ensures r == WithRecent(old(GetRecentDurations()), d)
      ensures doc == Some(RecentDoc(Some(r)))
      ensures GetRecentDurations() == r
    {
      var existing := GetRecentDurations();
      r := WithRecent(existing, d);
      doc := Some(RecentDoc(Some(r)));
    }
  }
}
