/** Fetching a large file: a temporary file filled by at most five attempts, each
    resumed by a Range request (RFC 9110, sections 14.2, 15.3.7 and 15.5.17), moved
    into place only when a body ran to its end. */
module Fetch {
  import opened Wrappers

  newtype byte = x: int | 0 <= x < 256

  type Bytes = seq<byte>

  const MAX_ATTEMPTS: nat := 5

  const BUFFER: nat := 1_048_576

  /** What the server does with a request: nothing, a status that is no success, the
      whole body, or the part of it from an offset on. */
  datatype Reply = NoAnswer | Refusal | Full | Partial(from: nat)

  /** One attempt as the client meets it: the reply, whether the temporary file opens,
      the sizes of the reads that deliver, and whether the read after them is the one
      of zero bytes; if it is not, it stalled or the connection dropped. */
  datatype Try = Try(reply: Reply, opens: bool, sizes: seq<nat>, ended: bool)

  function Sum(sizes: seq<nat>, m: nat): nat
    requires m <= |sizes|
  {
    if m == 0 then 0 else Sum(sizes, m - 1) + sizes[m - 1]
  }

  /** Where in the body a reply begins. */
  function Start(t: Try): nat {
    if t.reply.Partial? then t.reply.from else 0
  }

  /** The transport delivers the body in order from where the reply begins, and a read
      of zero bytes is its end. */
  predicate Delivers(body: Bytes, t: Try) {
    && (forall i :: 0 <= i < |t.sizes| ==> 0 < t.sizes[i] <= BUFFER)
    && (forall m :: 0 <= m <= |t.sizes| ==> Start(t) + Sum(t.sizes, m) <= |body|)
    && (t.ended ==> Start(t) + Sum(t.sizes, |t.sizes|) == |body|)
  }

  /** A part begins where it was asked to, is sent only to a request that asked for one,
      and holds something: a range that begins at the end of the body is refused. */
  predicate Conforms(body: Bytes, have: nat, t: Try) {
    Delivers(body, t) && (t.reply.Partial? ==> 0 < have < |body| && t.reply.from == have)
  }

  function Have(tmp: Option<Bytes>): nat {
    if tmp.Some? then |tmp.value| else 0
  }

  predicate Appends(tmp: Option<Bytes>, t: Try) {
    t.reply.Partial? && Have(tmp) > 0
  }

  /** The file after the first m reads of an attempt that got as far as opening it. */
  function Written(tmp: Option<Bytes>, body: Bytes, t: Try, m: nat): Bytes
    requires Delivers(body, t) && m <= |t.sizes|
  {
    assert Start(t) + Sum(t.sizes, m) <= |body|;
    (if Appends(tmp, t) then tmp.value else []) + body[Start(t)..Start(t) + Sum(t.sizes, m)]
  }

  lemma SliceGrows(base: Bytes, body: Bytes, from: nat, at: nat, n: nat)
    requires from <= at && at + n <= |body|
    ensures base + body[from..at + n] == (base + body[from..at]) + body[at..at + n]
  {
    assert body[from..at + n] == body[from..at] + body[at..at + n];
  }

  /** One more read adds the bytes that follow. */
  lemma WrittenNext(tmp: Option<Bytes>, body: Bytes, t: Try, m: nat)
    requires Delivers(body, t) && m < |t.sizes|
    ensures var at := Start(t) + Sum(t.sizes, m);
            && at + t.sizes[m] <= |body|
            && Written(tmp, body, t, m + 1) == Written(tmp, body, t, m) + body[at..at + t.sizes[m]]
  {
    var at := Start(t) + Sum(t.sizes, m);
    assert Start(t) + Sum(t.sizes, m + 1) == at + t.sizes[m];
    SliceGrows(if Appends(tmp, t) then tmp.value else [], body, Start(t), at, t.sizes[m]);
  }

  lemma NothingWritten(tmp: Option<Bytes>, body: Bytes, t: Try)
    requires Delivers(body, t)
    ensures Written(tmp, body, t, 0) == if Appends(tmp, t) then tmp.value else []
  {
  }

  predicate Opened(t: Try) {
    (t.reply.Full? || t.reply.Partial?) && t.opens
  }

  function Attempted(tmp: Option<Bytes>, body: Bytes, t: Try): Option<Bytes>
    requires Delivers(body, t)
  {
    if Opened(t) then Some(Written(tmp, body, t, |t.sizes|)) else tmp
  }

  predicate Ends(t: Try) {
    Opened(t) && t.ended
  }

  predicate AllDeliver(body: Bytes, tries: seq<Try>) {
    forall i :: 0 <= i < |tries| ==> Delivers(body, tries[i])
  }

  /** The temporary file after the first n attempts, all of them made. */
  function After(body: Bytes, tries: seq<Try>, n: nat): Option<Bytes>
    requires n <= |tries| && AllDeliver(body, tries)
  {
    if n == 0 then None else Attempted(After(body, tries, n - 1), body, tries[n - 1])
  }

  /** How many of the first n attempts appended. */
  function Resumed(body: Bytes, tries: seq<Try>, n: nat): nat
    requires n <= |tries| && AllDeliver(body, tries)
  {
    if n == 0 then 0
    else Resumed(body, tries, n - 1) + if Appends(After(body, tries, n - 1), tries[n - 1]) then 1 else 0
  }

  /** How many attempts are made: up to the first that ends, five at most. */
  function Made(tries: seq<Try>, n: nat): (k: nat)
    requires n <= MAX_ATTEMPTS <= |tries|
    ensures n <= k <= MAX_ATTEMPTS
    ensures forall i :: n <= i < k - 1 ==> !Ends(tries[i])
    ensures k < MAX_ATTEMPTS && k > n ==> Ends(tries[k - 1])
    decreases MAX_ATTEMPTS - n
  {
    if n == MAX_ATTEMPTS then n else if Ends(tries[n]) then n + 1 else Made(tries, n + 1)
  }

  datatype Result = Present | InProgress | Gone | Placed(resumed: nat)

  lemma AttemptNext(body: Bytes, tries: seq<Try>, n: nat, tmp: Option<Bytes>, resumed: nat)
    requires n < |tries| && AllDeliver(body, tries)
    requires tmp == After(body, tries, n) && resumed == Resumed(body, tries, n)
    ensures After(body, tries, n + 1) == Attempted(tmp, body, tries[n])
    ensures Resumed(body, tries, n + 1) == resumed + if Appends(tmp, tries[n]) then 1 else 0
  {
  }

  lemma MadeNext(tries: seq<Try>, n: nat)
    requires n < MAX_ATTEMPTS <= |tries|
    ensures Made(tries, n) == if Ends(tries[n]) then n + 1 else Made(tries, n + 1)
  {
  }

  class Disk {
    var tmp: Option<Bytes>
    var dest: Option<Bytes>

    constructor (t: Option<Bytes>, d: Option<Bytes>)
      ensures tmp == t && dest == d
    {
      tmp, dest := t, d;
    }

    /** One attempt: request, open, read until the end or a failure. */
    method Download(body: Bytes, t: Try) returns (appended: bool, done: bool)
      requires Delivers(body, t)
      modifies this`tmp
      ensures tmp == Attempted(old(tmp), body, t)
      ensures appended == Appends(old(tmp), t) && done == Ends(t)
    {
      var have := if tmp.Some? then |tmp.value| else 0;
      appended, done := false, false;
      if t.reply.NoAnswer? || t.reply.Refusal? {
        return;
      }
      appended := have > 0 && t.reply.Partial?;
      if !t.opens {
        return;
      }
      if !appended {
        tmp := Some([]);
      }
      var at := Start(t);
      NothingWritten(old(tmp), body, t);
      for m := 0 to |t.sizes|
        invariant at == Start(t) + Sum(t.sizes, m)
        invariant tmp == Some(Written(old(tmp), body, t, m))
      {
        var n := t.sizes[m];
        WrittenNext(old(tmp), body, t, m);
        tmp := Some(tmp.value + body[at..at + n]);
        at := at + n;
      }
      done := t.ended;
    }

    /** At most five attempts, until one ends. */
    method Attempts(body: Bytes, tries: seq<Try>) returns (done: bool, attempts: nat, resumed: nat)
      requires |tries| >= MAX_ATTEMPTS && AllDeliver(body, tries) && tmp == None
      modifies this`tmp
      ensures attempts == Made(tries, 0) && done == Ends(tries[attempts - 1])
      ensures tmp == After(body, tries, attempts) && resumed == Resumed(body, tries, attempts)
    {
      done, attempts, resumed := false, 0, 0;
      while !done && attempts < MAX_ATTEMPTS
        invariant attempts <= MAX_ATTEMPTS
        invariant tmp == After(body, tries, attempts) && resumed == Resumed(body, tries, attempts)
        invariant Made(tries, 0) == if done then attempts else Made(tries, attempts)
        invariant attempts > 0 ==> done == Ends(tries[attempts - 1])
        invariant done ==> attempts > 0
        decreases !done, MAX_ATTEMPTS - attempts
      {
        AttemptNext(body, tries, attempts, tmp, resumed);
        MadeNext(tries, attempts);
        var appended, ended := Download(body, tries[attempts]);
        if appended {
          resumed := resumed + 1;
        }
        attempts := attempts + 1;
        done := ended;
      }
    }

    method FetchIso(body: Bytes, locked: bool, tries: seq<Try>) returns (r: Result, attempts: nat)
      requires |tries| >= MAX_ATTEMPTS && AllDeliver(body, tries)
      modifies this
      ensures attempts <= MAX_ATTEMPTS
      ensures old(dest).Some? ==> r == Present && dest == old(dest) && tmp == old(tmp)
      ensures old(dest).None? && old(tmp).Some? && locked ==> r == InProgress && dest == old(dest) && tmp == old(tmp)
      ensures old(dest).None? && !(old(tmp).Some? && locked) ==>
                && (r.Placed? || r == Gone) && (dest.None? <==> r == Gone)
                && (r.Placed? <==> exists i :: 0 <= i < 5 && Completes(tries[i]))
                && (forall i :: 0 <= i < attempts - 1 ==> !Completes(tries[i]))
                && (r.Placed? && AllConform(body, tries) ==> dest == Some(body))
      ensures old(dest).None? && !(old(tmp).Some? && locked) ==>
                && attempts == Made(tries, 0)
                && r == (if Ends(tries[attempts - 1]) then Placed(Resumed(body, tries, attempts)) else Gone)
                && dest == (if Ends(tries[attempts - 1]) then After(body, tries, attempts) else None)
                && tmp == (if Ends(tries[attempts - 1]) then None else After(body, tries, attempts))
    {
      if dest.Some? {
        return Present, 0;
      }
      if tmp.Some? {
        if locked {
          return InProgress, 0;
        }
        tmp := None;
      }
      var done, resumed;
      done, attempts, resumed := Attempts(body, tries);
      MadeExactly(tries);
      if AllConform(body, tries) {
        AttemptsKeepPrefix(body, tries, attempts);
      }
      if !done {
        return Gone, attempts;
      }
      dest := tmp;
      tmp := None;
      return Placed(resumed), attempts;
    }
  }

  // ---- the temporary file -------------------------------------------------

  predicate Prefix(tmp: Option<Bytes>, body: Bytes) {
    tmp.Some? ==> tmp.value <= body
  }

  /** After every read of an attempt a conforming server answers, the file is a prefix
      of the body; after the last read of one that ends, it is the body. */
  lemma EveryReadKeepsPrefix(tmp: Option<Bytes>, body: Bytes, t: Try, m: nat)
    requires Prefix(tmp, body) && Conforms(body, Have(tmp), t) && m <= |t.sizes|
    ensures Written(tmp, body, t, m) <= body
    ensures m == |t.sizes| && t.ended ==> Written(tmp, body, t, m) == body
  {
    var k := Sum(t.sizes, m);
    if Appends(tmp, t) {
      var have := |tmp.value|;
      assert tmp.value == body[..have];
      assert body[..have] + body[have..have + k] == body[..have + k];
    } else {
      assert [] + body[0..k] == body[..k];
    }
  }

  predicate AllConform(body: Bytes, tries: seq<Try>) {
    AllDeliver(body, tries) && forall i :: 0 <= i < |tries| ==> Conforms(body, Have(After(body, tries, i)), tries[i])
  }

  lemma {:induction false} AttemptsKeepPrefix(body: Bytes, tries: seq<Try>, n: nat)
    requires n <= |tries| && AllConform(body, tries)
    ensures Prefix(After(body, tries, n), body)
    ensures n > 0 && Ends(tries[n - 1]) ==> After(body, tries, n) == Some(body)
  {
    if n > 0 {
      AttemptsKeepPrefix(body, tries, n - 1);
      var t := tries[n - 1];
      if Opened(t) {
        EveryReadKeepsPrefix(After(body, tries, n - 1), body, t, |t.sizes|);
      }
    }
  }

  /** The attempt is answered with the body or a part of it, opens the file and comes to its
      zero-byte read. */
  predicate Completes(t: Try) {
    (t.reply.Full? || t.reply.Partial?) && t.opens && t.ended
  }

  /** An attempt that completes is the last that is made, and only the fifth is the last
      without. */
  lemma MadeExactly(tries: seq<Try>)
    requires |tries| >= 5
    ensures var k := Made(tries, 0);
            && 1 <= k <= 5
            && (Ends(tries[k - 1]) <==> exists i :: 0 <= i < 5 && Completes(tries[i]))
            && (!Ends(tries[k - 1]) ==> k == 5)
            && forall i :: 0 <= i < k - 1 ==> !Completes(tries[i])
  {
    var k := Made(tries, 0);
    if Ends(tries[k - 1]) {
      assert k - 1 < MAX_ATTEMPTS;
    } else {
      assert forall i :: 0 <= i < MAX_ATTEMPTS ==> !Ends(tries[i]);
    }
  }

  /** Whatever is dropped, stalled, resumed or answered whole: the file is put in place
      exactly when one of the first five attempts completes; then it is the body and nothing
      else, and no attempt is made after the first such one. */
  lemma PlacedExactlyWhen(body: Bytes, tries: seq<Try>)
    requires |tries| >= 5 && AllConform(body, tries)
    ensures var k := Made(tries, 0);
            && 1 <= k <= 5
            && (Ends(tries[k - 1]) <==> exists i :: 0 <= i < 5 && Completes(tries[i]))
            && (Ends(tries[k - 1]) ==> After(body, tries, k) == Some(body))
            && (!Ends(tries[k - 1]) ==> k == 5)
            && forall i :: 0 <= i < k - 1 ==> !Completes(tries[i])
  {
    MadeExactly(tries);
    AttemptsKeepPrefix(body, tries, Made(tries, 0));
  }

  /** How far the file is after one more attempt - and so, being a prefix of the body, what
      it holds: an attempt that gets no body or does not open the file leaves it alone, a
      part goes behind what is there, the whole body starts it anew. */
  lemma AttemptReaches(body: Bytes, tries: seq<Try>, n: nat)
    requires n < |tries| && AllConform(body, tries)
    ensures var t, tmp, next := tries[n], After(body, tries, n), After(body, tries, n + 1);
            if (t.reply.Full? || t.reply.Partial?) && t.opens
            then next == Some(body[..(if t.reply.Partial? then |tmp.value| else 0) + Sum(t.sizes, |t.sizes|)])
            else next == tmp
  {
    var t, tmp := tries[n], After(body, tries, n);
    AttemptsKeepPrefix(body, tries, n);
    AttemptsKeepPrefix(body, tries, n + 1);
    if Opened(t) {
      var k := Sum(t.sizes, |t.sizes|);
      assert Start(t) + k <= |body|;
      var next := Written(tmp, body, t, |t.sizes|);
      assert |next| == (if t.reply.Partial? then |tmp.value| else 0) + k;
      assert next == body[..|next|];
    }
  }

  /** The attempt really appended: it was counted and the file opened. */
  predicate Appended(tmp: Option<Bytes>, t: Try) {
    Appends(tmp, t) && t.opens
  }

  /** How many of the first n attempts appended. */
  function Appendings(body: Bytes, tries: seq<Try>, n: nat): nat
    requires n <= |tries| && AllDeliver(body, tries)
  {
    if n == 0 then 0
    else Appendings(body, tries, n - 1) + if Appended(After(body, tries, n - 1), tries[n - 1]) then 1 else 0
  }

  predicate CountedAndShut(body: Bytes, tries: seq<Try>, i: nat)
    requires i < |tries| && AllDeliver(body, tries)
  {
    Appends(After(body, tries, i), tries[i]) && !tries[i].opens
  }

  /** The resume is counted before the file is opened: the count is never less than the
      attempts that appended, and equal to them if and only if the file opened in every
      attempt that was counted. */
  lemma {:induction false} ResumedExactlyWhen(body: Bytes, tries: seq<Try>, n: nat)
    requires n <= |tries| && AllDeliver(body, tries)
    ensures Resumed(body, tries, n) >= Appendings(body, tries, n)
    ensures Resumed(body, tries, n) == Appendings(body, tries, n) <==> forall i :: 0 <= i < n ==> !CountedAndShut(body, tries, i)
  {
    if n > 0 {
      ResumedExactlyWhen(body, tries, n - 1);
      assert (forall i :: 0 <= i < n ==> !CountedAndShut(body, tries, i)) <==>
        (forall i :: 0 <= i < n - 1 ==> !CountedAndShut(body, tries, i)) && !CountedAndShut(body, tries, n - 1);
    }
  }

  /** An attempt that appended lost nothing that was there before. */
  lemma AppendingLosesNothing(body: Bytes, tries: seq<Try>, n: nat)
    requires n < |tries| && AllConform(body, tries) && Appended(After(body, tries, n), tries[n])
    ensures Have(After(body, tries, n)) > 0
    ensures After(body, tries, n).value <= After(body, tries, n + 1).value
  {
    var tmp := After(body, tries, n);
    assert After(body, tries, n + 1) == Some(Written(tmp, body, tries[n], |tries[n].sizes|));
  }

  /** A part whose file does not open is counted and appends nothing. */
  lemma CountedUnopened(body: Bytes, tries: seq<Try>)
    requires |tries| == 2 && |body| == 2
    requires tries[0] == Try(Full, true, [1], false) && tries[1] == Try(Partial(1), false, [], false)
    ensures AllConform(body, tries) && After(body, tries, 2) == After(body, tries, 1)
    ensures Resumed(body, tries, 2) == 1 && Appendings(body, tries, 2) == 0
  {
    assert Sum([1], 0) == 0 && Sum([1], 1) == 1;
    assert Delivers(body, tries[0]) && Delivers(body, tries[1]);
    assert After(body, tries, 0) == None && After(body, tries, 1) == Some(Written(None, body, tries[0], 1));
    assert |After(body, tries, 1).value| == 1;
    assert Resumed(body, tries, 0) == 0 && Appendings(body, tries, 0) == 0;
    assert Resumed(body, tries, 1) == 0 && Appendings(body, tries, 1) == 0;
  }

  // ---- a body that arrived without its end --------------------------------

  /** The server honours a range or does not answer: from a complete file it is asked
      for the part from the end on, which section 15.5.17 refuses. */
  predicate HonoursRange(body: Bytes, have: nat, t: Try) {
    have > 0 ==> !t.reply.Full?
  }

  lemma NothingMoreToAsk(body: Bytes, t: Try)
    requires body != [] && Conforms(body, |body|, t) && HonoursRange(body, |body|, t)
    ensures Attempted(Some(body), body, t) == Some(body) && !Ends(t)
  {
  }

  lemma {:induction false} StuckWhenComplete(body: Bytes, tries: seq<Try>, n: nat, m: nat)
    requires n <= m <= |tries| && body != [] && AllDeliver(body, tries) && After(body, tries, n) == Some(body)
    requires forall i :: n <= i < |tries| ==> Conforms(body, |body|, tries[i]) && HonoursRange(body, |body|, tries[i])
    ensures After(body, tries, m) == Some(body)
    decreases m
  {
    if n < m {
      StuckWhenComplete(body, tries, n, m - 1);
      NothingMoreToAsk(body, tries[m - 1]);
    }
  }

  /** If the last byte arrives but not the end - the connection drops in between - then
      with a server that honours ranges every further attempt fails, and the fetch is
      reported failed with the whole body on disk. */
  lemma CompleteWithoutEndFails(body: Bytes, tries: seq<Try>, n: nat)
    requires 0 < n <= MAX_ATTEMPTS <= |tries| && body != [] && AllDeliver(body, tries)
    requires After(body, tries, n) == Some(body) && forall i :: 0 <= i < n ==> !Ends(tries[i])
    requires forall i :: n <= i < |tries| ==> Conforms(body, |body|, tries[i]) && HonoursRange(body, |body|, tries[i])
    ensures Made(tries, 0) == MAX_ATTEMPTS && !Ends(tries[MAX_ATTEMPTS - 1])
    ensures After(body, tries, MAX_ATTEMPTS) == Some(body)
  {
    StuckWhenComplete(body, tries, n, MAX_ATTEMPTS);
    forall i | n <= i < MAX_ATTEMPTS ensures !Ends(tries[i]) {
      NothingMoreToAsk(body, tries[i]);
    }
  }

  // ---- a part from somewhere else -----------------------------------------

  /** The part's offset is not looked at: a part that does not begin where the file
      ends keeps the file a prefix only if its bytes happen to be those that belong. */
  lemma UncheckedOffset(tmp: Option<Bytes>, body: Bytes, t: Try)
    requires tmp.Some? && tmp.value <= body && tmp.value != [] && t.reply.Partial? && Delivers(body, t)
    requires |tmp.value| + Sum(t.sizes, |t.sizes|) <= |body|
    ensures var k := Sum(t.sizes, |t.sizes|); var have := |tmp.value|;
            Written(tmp, body, t, |t.sizes|) <= body <==> body[t.reply.from..t.reply.from + k] == body[have..have + k]
  {
    var k, have, from := Sum(t.sizes, |t.sizes|), |tmp.value|, t.reply.from;
    var w := tmp.value + body[from..from + k];
    assert Written(tmp, body, t, |t.sizes|) == w;
    assert w[have..] == body[from..from + k];
    assert body[..have + k][have..] == body[have..have + k];
    if w <= body {
      assert w == body[..have + k];
    }
    assert tmp.value + body[have..have + k] == body[..have + k] by {
      assert tmp.value == body[..have];
    }
  }
}
