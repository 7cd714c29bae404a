/**
 * A logger that fans each message out to an ordered list of registered
 * loggers, after filtering on the message's level and category.
 *
 * A registered logger is identified by its address in the source, so two
 * registrations of the same logger are equal; here a logger is a number.
 */
module Logging {

  type LoggerId = nat

  /** Message severity; smaller is more severe, and a group passes levels up to its threshold. */
  type Level = nat

  datatype Message = Message(category: string, level: Level, time: int, body: string)

  /** One call of a registered logger with a message. */
  datatype Delivery = Delivery(logger: LoggerId, message: Message)

  // ---------------------------------------------------------------------------
  // The logger list without a given logger
  // ---------------------------------------------------------------------------

  /** The list s with every occurrence of x taken out, the rest in their order. */
  function Without(s: seq<LoggerId>, x: LoggerId): (r: seq<LoggerId>)
    ensures x !in r
    ensures |r| <= |s|
    ensures forall y :: y in r ==> y in s
  {
    if s == [] then []
    else if s[0] == x then Without(s[1..], x)
    else [s[0]] + Without(s[1..], x)
  }

  /** r can be obtained from s by deleting elements. */
  predicate IsSubsequence(r: seq<LoggerId>, s: seq<LoggerId>)
    decreases |s|
  {
    if r == [] then true
    else if s == [] then false
    else (r[0] == s[0] && IsSubsequence(r[1..], s[1..])) || IsSubsequence(r, s[1..])
  }

  lemma {:induction false} WithoutAppend(a: seq<LoggerId>, b: seq<LoggerId>, x: LoggerId)
    ensures Without(a + b, x) == Without(a, x) + Without(b, x)
    decreases |a|
  {
    if a == [] {
      assert a + b == b;
    } else {
      assert (a + b)[0] == a[0];
      assert (a + b)[1..] == a[1..] + b;
      WithoutAppend(a[1..], b, x);
    }
  }

  /** Removing a logger that is not registered changes nothing. */
  lemma {:induction false} WithoutAbsent(s: seq<LoggerId>, x: LoggerId)
    requires x !in s
    ensures Without(s, x) == s
    decreases |s|
  {
    if s != [] {
      WithoutAbsent(s[1..], x);
    }
  }

  /** Removing a logger twice is removing it once. */
  lemma WithoutIdempotent(s: seq<LoggerId>, x: LoggerId)
    ensures Without(Without(s, x), x) == Without(s, x)
  {
    WithoutAbsent(Without(s, x), x);
  }

  /** Every other logger keeps its number of registrations; x keeps none. */
  lemma {:induction false} WithoutCounts(s: seq<LoggerId>, x: LoggerId)
    ensures multiset(Without(s, x))[x] == 0
    ensures forall y :: y != x ==> multiset(Without(s, x))[y] == multiset(s)[y]
    decreases |s|
  {
    if s != [] {
      WithoutCounts(s[1..], x);
      assert s == [s[0]] + s[1..];
    }
  }

  /** The loggers that remain are in their original relative order. */
  lemma {:induction false} WithoutIsSubsequence(s: seq<LoggerId>, x: LoggerId)
    ensures IsSubsequence(Without(s, x), s)
    decreases |s|
  {
    if s != [] {
      WithoutIsSubsequence(s[1..], x);
      var r := Without(s, x);
      if s[0] == x {
        if r != [] {
          assert IsSubsequence(r, s[1..]);
        }
      } else {
        assert r[0] == s[0] && r[1..] == Without(s[1..], x);
      }
    }
  }

  lemma {:induction false} SubsequenceCounts(r: seq<LoggerId>, s: seq<LoggerId>)
    requires IsSubsequence(r, s)
    ensures multiset(r) <= multiset(s)
    decreases |s|
  {
    if r != [] {
      assert s == [s[0]] + s[1..];
      if r[0] == s[0] && IsSubsequence(r[1..], s[1..]) {
        SubsequenceCounts(r[1..], s[1..]);
        assert r == [r[0]] + r[1..];
      } else {
        SubsequenceCounts(r, s[1..]);
      }
    }
  }

  /**
   * Without(s, x) is the one list that keeps the order of s, holds no x and
   * keeps every other logger as often as s does: it is s with x filtered out.
   */
  lemma {:induction false} WithoutUnique(r: seq<LoggerId>, s: seq<LoggerId>, x: LoggerId)
    requires IsSubsequence(r, s)
    requires x !in r
    requires forall y :: y != x ==> multiset(r)[y] == multiset(s)[y]
    ensures r == Without(s, x)
    decreases |s|
  {
    if s == [] {
      assert r == [];
    } else {
      var a := s[0];
      assert s == [a] + s[1..];
      if a == x {
        if r != [] {
          assert r[0] != a;
          assert IsSubsequence(r, s[1..]);
        }
        WithoutUnique(r, s[1..], x);
      } else {
        assert multiset(s)[a] >= 1;
        assert a in multiset(r);
        assert r != [];
        if r[0] == a && IsSubsequence(r[1..], s[1..]) {
          assert r == [r[0]] + r[1..];
          assert multiset(r) == multiset([a]) + multiset(r[1..]);
          assert multiset(s) == multiset([a]) + multiset(s[1..]);
          forall y | y != x
            ensures multiset(r[1..])[y] == multiset(s[1..])[y]
          {
            assert multiset(r)[y] == multiset(s)[y];
            assert multiset(r)[y] == multiset([a])[y] + multiset(r[1..])[y];
            assert multiset(s)[y] == multiset([a])[y] + multiset(s[1..])[y];
          }
          assert x !in r[1..];
          WithoutUnique(r[1..], s[1..], x);
        } else {
          assert IsSubsequence(r, s[1..]);
          SubsequenceCounts(r, s[1..]);
          assert false;
        }
      }
    }
  }

  /** Removing one logger and then another gives the same list in either order. */
  lemma {:induction false} WithoutCommutes(s: seq<LoggerId>, x: LoggerId, y: LoggerId)
    ensures Without(Without(s, x), y) == Without(Without(s, y), x)
    decreases |s|
  {
    if s != [] {
      WithoutCommutes(s[1..], x, y);
    }
  }

  /** Removing after adding: the new registration of x goes, any other one stays at the end. */
  lemma AddThenRemove(s: seq<LoggerId>, y: LoggerId, x: LoggerId)
    ensures Without(s + [y], x) == if y == x then Without(s, x) else Without(s, x) + [y]
  {
    WithoutAppend(s, [y], x);
    assert [y][1..] == [];
  }

  // ---------------------------------------------------------------------------
  // Fan-out of one message
  // ---------------------------------------------------------------------------

  /** One delivery per list entry, in list order, each with the same message. */
  function Fanout(ls: seq<LoggerId>, m: Message): (r: seq<Delivery>)
    ensures |r| == |ls|
    ensures forall i :: 0 <= i < |ls| ==> r[i] == Delivery(ls[i], m)
  {
    if ls == [] then [] else [Delivery(ls[0], m)] + Fanout(ls[1..], m)
  }

  /** The number of deliveries a logger receives is its number of registrations. */
  lemma {:induction false} FanoutCounts(ls: seq<LoggerId>, m: Message, y: LoggerId)
    ensures multiset(Fanout(ls, m))[Delivery(y, m)] == multiset(ls)[y]
    decreases |ls|
  {
    if ls != [] {
      FanoutCounts(ls[1..], m, y);
      assert ls == [ls[0]] + ls[1..];
      assert Fanout(ls, m) == [Delivery(ls[0], m)] + Fanout(ls[1..], m);
    }
  }

  /** A removed logger receives nothing; every logger still registered receives the message. */
  lemma FanoutAfterRemove(ls: seq<LoggerId>, x: LoggerId, m: Message)
    ensures forall d :: d in Fanout(Without(ls, x), m) ==> d.logger != x && d.logger in ls && d.message == m
    ensures forall y :: y in ls && y != x ==> Delivery(y, m) in Fanout(Without(ls, x), m)
  {
    var r := Without(ls, x);
    var out := Fanout(r, m);
    forall y | y in ls && y != x
      ensures Delivery(y, m) in out
    {
      WithoutCounts(ls, x);
      assert y in multiset(r);
      var i :| 0 <= i < |r| && r[i] == y;
      assert out[i] == Delivery(y, m);
    }
  }

  // ---------------------------------------------------------------------------
  // The group object
  // ---------------------------------------------------------------------------

  class LoggerGroup {
    var loggers: seq<LoggerId>
    var logLevel: Level
    var disabledCategories: set<string>

    /** The message filter of the group. */
    predicate Accepts(m: Message)
      reads this
    {
      m.level <= logLevel && m.category !in disabledCategories
    }

    constructor (level: Level)
      ensures logLevel == level && loggers == [] && disabledCategories == {}
    {
      logLevel := level;
      loggers := [];
      disabledCategories := {};
    }

    /** Registers a logger at the end of the list; a logger already registered is registered again. */
    method AddLogger(logger: LoggerId)
      modifies this`loggers
      ensures loggers == old(loggers) + [logger]
    {
      loggers := loggers + [logger];
    }

    /** Erases every registration of the logger, keeping the rest in order. */
    method RemoveLogger(logger: LoggerId)
      modifies this`loggers
      ensures loggers == Without(old(loggers), logger)
    {
      var s := loggers;
      var kept: seq<LoggerId> := [];
      var i := 0;
      while i < |s|
        invariant 0 <= i <= |s|
        invariant kept == Without(s[..i], logger)
      {
        assert s[..i + 1] == s[..i] + [s[i]];
        AddThenRemove(s[..i], s[i], logger);
        if s[i] != logger {
          kept := kept + [s[i]];
        }
        i := i + 1;
      }
      assert s[..i] == s;
      loggers := kept;
    }

    /**
     * Passes the message to every registered logger in list order if the
     * group accepts it, and to none otherwise; returns the calls made.
     */
    method Dispatch(category: string, level: Level, time: int, body: string) returns (sent: seq<Delivery>)
      ensures sent == if Accepts(Message(category, level, time, body)) then Fanout(loggers, Message(category, level, time, body)) else []
    {
      var m := Message(category, level, time, body);
      sent := [];
      if level <= logLevel && category !in disabledCategories {
        var i := 0;
        while i < |loggers|
          invariant 0 <= i <= |loggers|
          invariant |sent| == i
          invariant forall j :: 0 <= j < i ==> sent[j] == Delivery(loggers[j], m)
        {
          sent := sent + [Delivery(loggers[i], m)];
          i := i + 1;
        }
      }
    }
  }
}
