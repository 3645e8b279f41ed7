/** The request history: every completed send prepends one entry, and the
    log keeps the 25 most recent. */
module History {

  /** `{ id, method, url, status, time }`; `id` is the send's timestamp. */
  datatype Entry = Entry(id: int, verb: string, url: string, status: nat, time: int)

  const Limit: nat := 25

  /** The first `n` elements, or all of them when there are fewer. */
  function Take<T>(s: seq<T>, n: nat): (r: seq<T>)
    ensures |r| == if |s| <= n then |s| else n
    ensures r == s[..|r|]
  {
    if |s| <= n then s else s[..n]
  }

  /** `[entry, ...log].slice(0, 25)`. */
  function Record(log: seq<Entry>, e: Entry): (r: seq<Entry>)
    ensures |r| == if |log| < Limit then |log| + 1 else Limit
    ensures r[0] == e
    ensures r[1..] == log[..|r| - 1]
  {
    var r := Take([e] + log, Limit);
    assert r[1..] == ([e] + log)[1..|r|];
    r
  }

  /** The log after the sends `es`, oldest first. */
  function RecordAll(log: seq<Entry>, es: seq<Entry>): seq<Entry>
    decreases |es|
  {
    if es == [] then log else RecordAll(Record(log, es[0]), es[1..])
  }

  function Reversed<T>(s: seq<T>): (r: seq<T>)
    ensures |r| == |s|
  {
    if s == [] then [] else Reversed(s[1..]) + [s[0]]
  }

  lemma TakeAppendTake<T>(a: seq<T>, b: seq<T>, n: nat)
    ensures Take(a + Take(b, n), n) == Take(a + b, n)
  {
    if |b| > n {
      var x := Take(a + b[..n], n);
      var y := Take(a + b, n);
      assert |x| == |y| == n;
      forall i | 0 <= i < n ensures x[i] == y[i] {
        if i >= |a| {
          assert x[i] == b[..n][i - |a|];
        }
      }
    }
  }

  /** Reference definition: after any sequence of sends the log is the newest
      25 entries, newest first, followed by what was there before. */
  lemma {:induction false} RecordAllNewestFirst(log: seq<Entry>, es: seq<Entry>)
    requires |log| <= Limit
    ensures RecordAll(log, es) == Take(Reversed(es) + log, Limit)
    decreases |es|
  {
    if es == [] {
      assert Reversed(es) + log == log;
    } else {
      var e := es[0];
      RecordAllNewestFirst(Record(log, e), es[1..]);
      assert Record(log, e) == Take([e] + log, Limit);
      TakeAppendTake(Reversed(es[1..]), [e] + log, Limit);
      assert Reversed(es[1..]) + ([e] + log) == Reversed(es) + log;
    }
  }

  /** After 26 sends into an empty log, the first send has been dropped and
      the log holds the other 25, newest first. */
  lemma OldestDropped(es: seq<Entry>)
    requires |es| == Limit + 1
    ensures RecordAll([], es) == Reversed(es[1..])
  {
    RecordAllNewestFirst([], es);
    assert es[1..] == es[1..];
    var rev := Reversed(es);
    assert rev == Reversed(es[1..]) + [es[0]];
    assert rev + [] == rev;
    assert rev[..Limit] == Reversed(es[1..]);
  }
}
