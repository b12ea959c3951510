/**
 * Rate limiting by buckets: a call passes when its bucket was last called at
 * least `rate` ago, and every call, passed or not, restarts the bucket's clock.
 */
module Throttle {
  import opened Prelude
  import opened Decimal

  datatype Bucket = Bucket(rate: real, lastCall: real, delta: real, exceeded: nat)

  type Buckets = map<string, Bucket>

  // A call at a moment, on the bucket of its key, user and chat.
  datatype Call = Call(bucket: string, rate: real, at: real)

  function PrintId(id: Option<int>): string {
    if id.Some? then PrintInt(id.value) else "None"
  }

  function Owner(user: Option<int>, chat: Option<int>): string {
    if user.Some? then PrintInt(user.value) + "_" + PrintId(chat) else PrintId(chat)
  }

  function BucketName(key: string, user: Option<int>, chat: Option<int>): string {
    "throttle_" + key + "_" + Owner(user, chat)
  }

  function Called(buckets: Buckets, c: Call): real {
    if c.bucket in buckets then buckets[c.bucket].lastCall else c.at
  }

  predicate Passes(buckets: Buckets, c: Call) {
    c.rate == 0.0 || c.at - Called(buckets, c) >= c.rate || c.at - Called(buckets, c) <= 0.0
  }

  // A rate of 0 is no throttling: the bucket is not even read.
  function After(buckets: Buckets, c: Call): Buckets {
    if c.rate == 0.0 then buckets
    else
      var exceeded :=
        if Passes(buckets, c) then 1
        else if c.bucket in buckets then buckets[c.bucket].exceeded + 1 else 1;
      buckets[c.bucket := Bucket(c.rate, c.at, c.at - Called(buckets, c), exceeded)]
  }

  class ThrottleManager {
    var buckets: Buckets

    constructor ()
      ensures buckets == map[]
    {
      buckets := map[];
    }

    // A call that does not pass is the source's Throttled error.
    method Throttle(key: string, rate: real, user: Option<int>, chat: Option<int>, now: real) returns (passed: bool)
      modifies this
      ensures passed == Passes(old(buckets), Call(BucketName(key, user, chat), rate, now))
      ensures buckets == After(old(buckets), Call(BucketName(key, user, chat), rate, now))
    {
      if rate == 0.0 {
        return true;
      }
      var name := BucketName(key, user, chat);
      var called := now;
      var exceeded := 0;
      if name in buckets {
        called, exceeded := buckets[name].lastCall, buckets[name].exceeded;
      }
      var delta := now - called;
      passed := delta >= rate || delta <= 0.0;
      if !passed {
        exceeded := exceeded + 1;
      } else {
        exceeded := 1;
      }
      buckets := buckets[name := Bucket(rate, now, delta, exceeded)];
    }
  }

  // --------------------------------------------------------------- whole runs

  function Run(calls: seq<Call>, n: nat): Buckets
    requires n <= |calls|
  {
    if n == 0 then map[] else After(Run(calls, n - 1), calls[n - 1])
  }

  // The i-th call is throttled on this bucket.
  predicate On(calls: seq<Call>, i: nat, name: string)
    requires i < |calls|
  {
    calls[i].rate != 0.0 && calls[i].bucket == name
  }

  predicate Passed(calls: seq<Call>, i: nat)
    requires i < |calls|
  {
    Passes(Run(calls, i), calls[i])
  }

  ghost predicate IsPrevious(calls: seq<Call>, p: nat, n: nat, name: string)
    requires n <= |calls|
  {
    p < n && On(calls, p, name) && forall i | p < i < n :: !On(calls, i, name)
  }

  // The clock of the bucket: each call on it comes later than those before.
  ghost predicate ClockIncreases(calls: seq<Call>, name: string) {
    forall i, j | 0 <= i < j < |calls| && On(calls, i, name) && On(calls, j, name) :: calls[i].at < calls[j].at
  }

  // What a bucket remembers is its latest call.
  lemma {:induction false} RemembersPrevious(calls: seq<Call>, n: nat, name: string) returns (p: nat)
    requires n <= |calls| && name in Run(calls, n)
    ensures IsPrevious(calls, p, n, name) && Run(calls, n)[name].lastCall == calls[p].at
  {
    if On(calls, n - 1, name) {
      p := n - 1;
    } else {
      p := RemembersPrevious(calls, n - 1, name);
    }
  }

  lemma {:induction false} CalledIsRemembered(calls: seq<Call>, i: nat, n: nat, name: string)
    requires i < n <= |calls| && On(calls, i, name)
    ensures name in Run(calls, n)
  {
    if i < n - 1 {
      CalledIsRemembered(calls, i, n - 1, name);
    }
  }

  /** A throttled call passes exactly when its bucket was never called before, or
      its previous call, passed or not, is at least `rate` or at most 0 ago. */
  lemma PassedIff(calls: seq<Call>, n: nat, name: string)
    requires n < |calls| && On(calls, n, name)
    ensures Passed(calls, n) <==>
      forall p: nat | p < n && IsPrevious(calls, p, n, name) ::
        calls[n].at - calls[p].at >= calls[n].rate || calls[n].at - calls[p].at <= 0.0
  {
    if name in Run(calls, n) {
      var p := RemembersPrevious(calls, n, name);
      forall q: nat | q < n && IsPrevious(calls, q, n, name)
        ensures q == p
      {
      }
    } else {
      forall p: nat | p < n && IsPrevious(calls, p, n, name)
        ensures false
      {
        CalledIsRemembered(calls, p, n, name);
      }
    }
  }

  /** Under a strictly increasing clock, a call that passes comes at least its
      rate after every earlier call on its bucket, so passed calls are apart. */
  lemma PassedAreApart(calls: seq<Call>, i: nat, j: nat, name: string)
    requires ClockIncreases(calls, name) && i < j < |calls|
    requires On(calls, i, name) && On(calls, j, name) && Passed(calls, j)
    ensures calls[j].at - calls[i].at >= calls[j].rate
  {
    CalledIsRemembered(calls, i, j, name);
    var p := RemembersPrevious(calls, j, name);
    assert i <= p && calls[i].at <= calls[p].at < calls[j].at;
  }

  // When the calls on a bucket passed, in order.
  function PassedTimes(calls: seq<Call>, n: nat, name: string): seq<real>
    requires n <= |calls|
  {
    if n == 0 then []
    else
      PassedTimes(calls, n - 1, name)
      + if On(calls, n - 1, name) && Passed(calls, n - 1) then [calls[n - 1].at] else []
  }

  ghost predicate RateAtLeast(calls: seq<Call>, name: string, rate: real) {
    forall i: nat | i < |calls| && On(calls, i, name) :: calls[i].rate >= rate
  }

  ghost predicate Apart(times: seq<real>, rate: real) {
    forall k | 0 <= k < |times| - 1 :: times[k + 1] - times[k] >= rate
  }

  lemma {:induction false} LastPassed(calls: seq<Call>, n: nat, name: string) returns (last: nat)
    requires n <= |calls| && PassedTimes(calls, n, name) != []
    ensures last < n && On(calls, last, name)
    ensures var times := PassedTimes(calls, n, name); times[|times| - 1] == calls[last].at
  {
    if On(calls, n - 1, name) && Passed(calls, n - 1) {
      last := n - 1;
    } else {
      last := LastPassed(calls, n - 1, name);
    }
  }

  lemma {:induction false} TimesAreApart(calls: seq<Call>, n: nat, name: string, rate: real)
    requires ClockIncreases(calls, name) && RateAtLeast(calls, name, rate) && n <= |calls|
    ensures Apart(PassedTimes(calls, n, name), rate)
  {
    if n == 0 {
    } else {
      TimesAreApart(calls, n - 1, name, rate);
      var earlier := PassedTimes(calls, n - 1, name);
      if On(calls, n - 1, name) && Passed(calls, n - 1) && earlier != [] {
        var last := LastPassed(calls, n - 1, name);
        PassedAreApart(calls, last, n - 1, name);
        ApartAppend(earlier, calls[n - 1].at, rate);
      }
    }
  }

  lemma ApartAppend(times: seq<real>, at: real, rate: real)
    requires Apart(times, rate) && times != [] && at - times[|times| - 1] >= rate
    ensures Apart(times + [at], rate)
  {
  }

  function CountWithin(times: seq<real>, from: real, until: real): nat {
    if times == [] then 0
    else
      CountWithin(times[..|times| - 1], from, until) + if from <= times[|times| - 1] <= until then 1 else 0
  }

  // k times the rate, added up.
  function Span(k: nat, rate: real): real {
    if k == 0 then 0.0 else Span(k - 1, rate) + rate
  }

  // The last of the times counted is so much later than the window's start.
  lemma {:induction false} CountedSpan(times: seq<real>, rate: real, from: real, until: real) returns (last: nat)
    requires Apart(times, rate) && rate > 0.0 && CountWithin(times, from, until) > 0
    ensures last < |times| && from <= times[last] <= until
    ensures Span(CountWithin(times, from, until) - 1, rate) <= times[last] - from
  {
    var n := |times| - 1;
    var front := times[..n];
    assert forall k | 0 <= k < |front| - 1 :: front[k + 1] - front[k] == times[k + 1] - times[k];
    if CountWithin(front, from, until) == CountWithin(times, from, until) {
      last := CountedSpan(front, rate, from, until);
    } else {
      last := n;
      if CountWithin(front, from, until) > 0 {
        var earlier := CountedSpan(front, rate, from, until);
        Later(times, rate, earlier, n);
      }
    }
  }

  lemma {:induction false} Later(times: seq<real>, rate: real, i: nat, j: nat)
    requires Apart(times, rate) && rate > 0.0 && i < j < |times|
    ensures times[j] - times[i] >= rate
  {
    assert times[j - 1 + 1] - times[j - 1] >= rate;
    if i < j - 1 {
      Later(times, rate, i, j - 1);
    }
  }

  lemma {:induction false} SpanIsProduct(k: nat, rate: real)
    ensures Span(k, rate) == k as real * rate
  {
    if k == 0 {
    } else {
      SpanIsProduct(k - 1, rate);
      assert k as real * rate == (k - 1) as real * rate + rate by {
        assert k as real == (k - 1) as real + 1.0;
      }
    }
  }

  lemma Quotient(k: real, rate: real, length: real)
    requires rate > 0.0 && k * rate <= length
    ensures k <= length / rate
  {
    var most := length / rate;
    assert most * rate == length;
    if k > most {
      assert (k - most) * rate > 0.0;
    }
  }

  /** In any window of a run, the calls that passed on a bucket are at most the
      window's length divided by the rate, plus one. */
  lemma WindowBound(calls: seq<Call>, name: string, rate: real, from: real, until: real)
    requires ClockIncreases(calls, name) && RateAtLeast(calls, name, rate) && rate > 0.0 && from <= until
    ensures CountWithin(PassedTimes(calls, |calls|, name), from, until) as real <= (until - from) / rate + 1.0
  {
    TimesAreApart(calls, |calls|, name, rate);
    CountBound(PassedTimes(calls, |calls|, name), rate, from, until);
  }

  lemma CountBound(times: seq<real>, rate: real, from: real, until: real)
    requires Apart(times, rate) && rate > 0.0 && from <= until
    ensures CountWithin(times, from, until) as real <= (until - from) / rate + 1.0
  {
    var count := CountWithin(times, from, until);
    if count > 0 {
      var last := CountedSpan(times, rate, from, until);
      SpanIsProduct(count - 1, rate);
      Quotient((count - 1) as real, rate, until - from);
    } else {
      Quotient(0.0, rate, until - from);
    }
  }

  // ----------------------------------------------------------- EXCEEDED_COUNT

  function CallsOn(calls: seq<Call>, i: nat, n: nat, name: string): nat
    requires n <= |calls|
  {
    if n <= i then 0 else CallsOn(calls, i, n - 1, name) + if On(calls, n - 1, name) then 1 else 0
  }

  lemma ElsewhereKeeps(calls: seq<Call>, n: nat, name: string)
    requires n < |calls| && !On(calls, n, name)
    ensures name in Run(calls, n + 1) <==> name in Run(calls, n)
    ensures name in Run(calls, n) ==> Run(calls, n + 1)[name] == Run(calls, n)[name]
  {
    assert Run(calls, n + 1) == After(Run(calls, n), calls[n]);
  }

  lemma RejectedAddsOne(calls: seq<Call>, n: nat, name: string)
    requires n < |calls| && On(calls, n, name) && !Passed(calls, n)
    ensures name in Run(calls, n) && name in Run(calls, n + 1)
    ensures Run(calls, n + 1)[name].exceeded == Run(calls, n)[name].exceeded + 1
  {
    assert Run(calls, n + 1) == After(Run(calls, n), calls[n]);
  }

  /** EXCEEDED_COUNT is one for the last call that passed, plus one for each
      rejection on the bucket since. */
  lemma {:induction false} ExceededCountsRejections(calls: seq<Call>, n: nat, name: string) returns (passed: nat)
    requires n <= |calls| && name in Run(calls, n)
    ensures passed < n && On(calls, passed, name) && Passed(calls, passed)
    ensures forall i | passed < i < n && On(calls, i, name) :: !Passed(calls, i)
    ensures Run(calls, n)[name].exceeded == 1 + CallsOn(calls, passed + 1, n, name)
  {
    if !On(calls, n - 1, name) {
      ElsewhereKeeps(calls, n - 1, name);
      passed := ExceededCountsRejections(calls, n - 1, name);
    } else if Passed(calls, n - 1) {
      passed := n - 1;
    } else {
      RejectedAddsOne(calls, n - 1, name);
      passed := ExceededCountsRejections(calls, n - 1, name);
    }
  }

  /** A rate of 0 always passes and leaves every bucket alone. */
  lemma ZeroRateIsFree(buckets: Buckets, c: Call)
    requires c.rate == 0.0
    ensures Passes(buckets, c) && After(buckets, c) == buckets
  {
  }

  // Some call before n is throttled on the bucket.
  ghost predicate WasCalled(calls: seq<Call>, n: nat, name: string)
    requires n <= |calls|
  {
    exists p: nat :: p < n && On(calls, p, name)
  }

  /** What a bucket records of its last call: its rate, its time, and how long after
      the call before it came, or 0 if it was the first. */
  lemma BucketRecords(calls: seq<Call>, n: nat, name: string)
    requires n < |calls| && On(calls, n, name)
    ensures name in Run(calls, n + 1)
    ensures var bucket := Run(calls, n + 1)[name];
      && bucket.rate == calls[n].rate && bucket.lastCall == calls[n].at
      && (forall p: nat | p < n && IsPrevious(calls, p, n, name) :: bucket.delta == calls[n].at - calls[p].at)
      && (!WasCalled(calls, n, name) ==> bucket.delta == 0.0)
  {
    assert Run(calls, n + 1) == After(Run(calls, n), calls[n]);
    if name in Run(calls, n) {
      var p := RemembersPrevious(calls, n, name);
      forall q: nat | q < n && IsPrevious(calls, q, n, name)
        ensures q == p
      {
      }
      assert WasCalled(calls, n, name);
    } else {
      forall p: nat | p < n && IsPrevious(calls, p, n, name)
        ensures false
      {
        CalledIsRemembered(calls, p, n, name);
      }
    }
  }

  /** A clock that stands still lets every call through, whatever the rate. */
  lemma FrozenClockPasses(calls: seq<Call>, n: nat)
    requires n < |calls| && forall i, j | 0 <= i < j < |calls| :: calls[i].at == calls[j].at
    ensures Passed(calls, n)
  {
    var name := calls[n].bucket;
    if name in Run(calls, n) {
      var p := RemembersPrevious(calls, n, name);
    }
  }

  // ------------------------------------------------------------- bucket names

  lemma {:induction false} PrintHasNoUnderscore(n: nat)
    ensures '_' !in Print(n)
  {
    if n >= 10 {
      PrintHasNoUnderscore(n / 10);
    }
  }

  lemma IdHasNoUnderscore(id: Option<int>)
    ensures '_' !in PrintId(id)
  {
    if id.Some? {
      PrintHasNoUnderscore(if id.value < 0 then -id.value else id.value);
    }
  }

  lemma PrintIdInjective(x: Option<int>, y: Option<int>)
    requires PrintId(x) == PrintId(y)
    ensures x == y
  {
    if x.Some? {
      ParsePrintInt(x.value);
    }
    if y.Some? {
      ParsePrintInt(y.value);
    }
  }

  // The last underscore splits a text in one way only.
  lemma {:induction false} LastSplit(a: string, b: string, c: string, d: string)
    requires a + "_" + b == c + "_" + d && '_' !in b && '_' !in d
    ensures a == c && b == d
  {
    var s := a + "_" + b;
    if b == "" || d == "" {
      LastCharacter(a, b);
      LastCharacter(c, d);
      assert a == s[..|a|] && c == s[..|c|];
    } else {
      LastCharacter(a, b);
      LastCharacter(c, d);
      LastSplit(a, b[..|b| - 1], c, d[..|d| - 1]);
      assert b == b[..|b| - 1] + [s[|s| - 1]] && d == d[..|d| - 1] + [s[|s| - 1]];
    }
  }

  lemma LastCharacter(a: string, b: string)
    ensures var s := a + "_" + b;
      if b == "" then s[|s| - 1] == '_'
      else s[|s| - 1] == b[|b| - 1] && b[|b| - 1] in b && s[..|s| - 1] == a + "_" + b[..|b| - 1]
  {
  }

  // What a bucket's name has before the chat.
  function Stem(key: string, user: Option<int>): string {
    if user.Some? then key + "_" + PrintInt(user.value) else key
  }

  lemma NameIsStem(key: string, user: Option<int>, chat: Option<int>)
    ensures BucketName(key, user, chat) == "throttle_" + (Stem(key, user) + "_" + PrintId(chat))
  {
  }

  lemma SameStem(key: string, user: int, key': string, user': int)
    requires Stem(key, Some(user)) == Stem(key', Some(user'))
    ensures key == key' && user == user'
  {
    IdHasNoUnderscore(Some(user));
    IdHasNoUnderscore(Some(user'));
    LastSplit(key, PrintInt(user), key', PrintInt(user'));
    ParsePrintInt(user);
    ParsePrintInt(user');
  }

  /** Two calls share a bucket if and only if they are in the same chat, and have
      the same key and user, or one has no user and its key is the other's key
      with an underscore and that user's number appended. */
  lemma CollideIff(key: string, user: Option<int>, chat: Option<int>, key': string, user': Option<int>,
                   chat': Option<int>)
    ensures BucketName(key, user, chat) == BucketName(key', user', chat')
       <==> chat == chat'
            && ((key == key' && user == user')
                || (user.None? && user'.Some? && key == key' + "_" + PrintInt(user'.value))
                || (user'.None? && user.Some? && key' == key + "_" + PrintInt(user.value)))
  {
    NameIsStem(key, user, chat);
    NameIsStem(key', user', chat');
    if BucketName(key, user, chat) == BucketName(key', user', chat') {
      var rest, rest' := Stem(key, user) + "_" + PrintId(chat), Stem(key', user') + "_" + PrintId(chat');
      assert rest == ("throttle_" + rest)[9..] && rest' == ("throttle_" + rest')[9..];
      IdHasNoUnderscore(chat);
      IdHasNoUnderscore(chat');
      LastSplit(Stem(key, user), PrintId(chat), Stem(key', user'), PrintId(chat'));
      PrintIdInjective(chat, chat');
      if user.Some? && user'.Some? {
        SameStem(key, user.value, key', user'.value);
      }
    }
  }

  /** Under one key, every user and chat has a bucket of its own. */
  lemma OneKeySeparates(key: string, user: Option<int>, chat: Option<int>, user': Option<int>, chat': Option<int>)
    requires BucketName(key, user, chat) == BucketName(key, user', chat')
    ensures user == user' && chat == chat'
  {
    Longer(key, PrintId(user));
    Longer(key, PrintId(user'));
    CollideIff(key, user, chat, key, user', chat');
  }

  lemma Longer(key: string, digits: string)
    ensures key != key + "_" + digits
  {
    assert |key + "_" + digits| > |key|;
  }

  /** So a chat bucket whose key ends in a user's number is that user's bucket
      under the shorter key. */
  lemma KeysMayCollide(key: string, user: int, chat: Option<int>)
    ensures BucketName(key + "_" + PrintInt(user), None, chat) == BucketName(key, Some(user), chat)
  {
    CollideIff(key + "_" + PrintInt(user), None, chat, key, Some(user), chat);
  }
}
