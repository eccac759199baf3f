/**
 The stdout readiness handshake: a bounded buffer that the output collector fills, a one-slot wake-up channel, a
 goroutine that closes `done` once the collector has finished, and a reader that waits for the first line.
 */
module Readiness {
  import opened Basics

  const NEWLINE: byte := 0x0A

  predicate HasLine(data: Bytes) { NEWLINE in data }

  /** `bytes.Cut` at the first newline: what stands before it. */
  function FirstLine(data: Bytes): (line: Bytes)
    ensures NEWLINE !in line && line <= data
    ensures HasLine(data) ==> line + [NEWLINE] <= data
    ensures !HasLine(data) ==> line == data
  {
    if data == [] || data[0] == NEWLINE then []
    else
      assert data == [data[0]] + data[1..];
      [data[0]] + FirstLine(data[1..])
  }

  /** The first line does not change when output is appended behind it. */
  lemma {:induction false} FirstLineIsStable(data: Bytes, more: Bytes)
    requires HasLine(data)
    ensures HasLine(data + more) && FirstLine(data + more) == FirstLine(data)
  {
    if data[0] != NEWLINE {
      assert data == [data[0]] + data[1..];
      assert (data + more)[1..] == data[1..] + more;
      FirstLineIsStable(data[1..], more);
    }
  }

  // ---------------------------------------------------------------- the buffer

  type Time = nat

  /** The buffer's fields; `token` is the content of its one-slot channel. */
  datatype Buf = Buf(data: Bytes, limit: nat, overflow: bool, firstLineAt: Option<Time>, token: bool)

  predicate Fits(b: Buf, bytes: Bytes) { |b.data| + |bytes| <= b.limit }

  /** A write up to the moment it notifies the reader. */
  function Append(b: Buf, bytes: Bytes, now: Time): Buf {
    if !Fits(b, bytes) then b.(overflow := true)
    else
      var data := b.data + bytes;
      b.(data := data, firstLineAt := if b.firstLineAt.None? && HasLine(data) then Some(now) else b.firstLineAt)
  }

  function Notify(b: Buf): Buf { b.(token := true) }

  /** A whole write: a rejected one leaves the output as it is and wakes nobody. */
  function Written(b: Buf, bytes: Bytes, now: Time): Buf {
    if Fits(b, bytes) then Notify(Append(b, bytes, now)) else Append(b, bytes, now)
  }

  class Buffer {
    var data: Bytes
    var limit: nat
    var overflow: bool
    var firstLineAt: Option<Time>
    var changed: bool

    ghost predicate Valid()
      reads this
    {
      |data| <= limit && (firstLineAt.Some? <==> HasLine(data))
    }

    function Contents(): Buf
      reads this
    {
      Buf(data, limit, overflow, firstLineAt, changed)
    }

    constructor (limit: nat)
      ensures Valid() && Contents() == Buf([], limit, false, None, false)
    {
      data, this.limit, overflow, firstLineAt, changed := [], limit, false, None, false;
    }

    /** `Buffer.Write`: all of the bytes or none, the overflow flag, the time of the first newline, and the wake-up. */
    method Write(bytes: Bytes, now: Time) returns (written: nat, failed: bool)
      requires Valid()
      modifies this
      ensures Valid() && Contents() == Written(old(Contents()), bytes, now)
      ensures failed <==> |old(data)| + |bytes| > limit
      ensures written == if failed then 0 else |bytes|
      ensures !failed ==> changed && data == old(data) + bytes && overflow == old(overflow)
      ensures failed ==> data == old(data) && firstLineAt == old(firstLineAt) && changed == old(changed) && overflow
    {
      if |bytes| > limit - |data| {
        overflow := true;
        return 0, true;
      }
      data := data + bytes;
      if firstLineAt.None? && HasLine(data) {
        firstLineAt := Some(now);
      }
      if !changed {
        changed := true;
      }
      return |bytes|, false;
    }
  }

  // ---------------------------------------------------------------- the handshake

  datatype Reader = Check | Select | Drain | Line(line: Bytes, at: Option<Time>) | Cancelled | Exited

  /**
   `writing` holds while a write has appended but not yet notified: the mutex is held.
   `seen` is what the reader last saw.
   */
  datatype State = State(buf: Buf, writing: bool, done: bool, reader: Reader, seen: nat)

  datatype Action =
    | BeginWrite(bytes: Bytes, now: Time) | EndWrite | Close
    | Look | Wake | SeeDone | SeeCancel | DrainToken | Finish

  predicate Init(s: State) {
    && s.buf.data == [] && s.buf.firstLineAt.None? && !s.buf.token
    && !s.writing && !s.done && s.reader == Check && s.seen == 0
  }

  /** The collector writes under the mutex and is finished before `done` closes; the reader looks under the mutex. */
  predicate Enabled(s: State, a: Action) {
    match a
    case BeginWrite(_, _) => !s.writing && !s.done
    case EndWrite => s.writing
    case Close => !s.writing && !s.done
    case Look => s.reader.Check? && !s.writing
    case Wake => s.reader.Select? && s.buf.token
    case SeeDone => s.reader.Select? && s.done
    case SeeCancel => s.reader.Select?
    case DrainToken => s.reader.Drain? && s.buf.token
    case Finish => s.reader.Drain? && !s.buf.token
  }

  function Step(s: State, a: Action): State
    requires Enabled(s, a)
  {
    match a
    case BeginWrite(bytes, now) => s.(buf := Append(s.buf, bytes, now), writing := Fits(s.buf, bytes))
    case EndWrite => s.(buf := Notify(s.buf), writing := false)
    case Close => s.(done := true)
    case Look =>
      if HasLine(s.buf.data) then s.(reader := Line(FirstLine(s.buf.data), s.buf.firstLineAt), seen := |s.buf.data|)
      else s.(reader := Select, seen := |s.buf.data|)
    case Wake => s.(buf := s.buf.(token := false), reader := Check)
    case SeeDone => s.(reader := Drain)
    case SeeCancel => s.(reader := Cancelled)
    case DrainToken => s.(buf := s.buf.(token := false), reader := Check)
    case Finish => s.(reader := Exited)
  }

  /** To the handshake, a write is an append and then the notification; a rejected one is only the first. */
  lemma WriteIsItsSteps(s: State, bytes: Bytes, now: Time)
    requires Enabled(s, BeginWrite(bytes, now))
    ensures var begun := Step(s, BeginWrite(bytes, now));
      if Fits(s.buf, bytes)
      then Enabled(begun, EndWrite) && Step(begun, EndWrite) == s.(buf := Written(s.buf, bytes, now))
      else begun == s.(buf := Written(s.buf, bytes, now))
  {
  }

  ghost predicate Next(s: State, s': State) { exists a :: Enabled(s, a) && s' == Step(s, a) }

  ghost predicate StepAt(tr: seq<State>, i: nat)
    requires i + 1 < |tr|
  {
    Next(tr[i], tr[i + 1])
  }

  ghost predicate Run(tr: seq<State>) {
    |tr| > 0 && Init(tr[0]) && forall i :: 0 <= i < |tr| - 1 ==> StepAt(tr, i)
  }

  /** A waiting reader has seen everything, or a token is on its way. */
  predicate WakeUpPending(s: State) { s.seen < |s.buf.data| ==> s.buf.token || s.writing }

  predicate Inv(s: State) {
    && s.seen <= |s.buf.data|
    && (s.buf.firstLineAt.Some? <==> HasLine(s.buf.data))
    && (s.done ==> !s.writing)
    && (s.reader.Select? || s.reader.Drain? ==> WakeUpPending(s) && !HasLine(s.buf.data[..s.seen]))
    && (s.reader.Drain? ==> s.done)
    && (s.reader.Exited? ==> s.done && !HasLine(s.buf.data))
    && (s.reader.Line? ==>
          HasLine(s.buf.data) && s.reader.line == FirstLine(s.buf.data) && s.reader.at == s.buf.firstLineAt)
  }

  lemma StepKeepsInv(s: State, a: Action)
    requires Inv(s) && Enabled(s, a)
    ensures Inv(Step(s, a))
  {
    match a
    case BeginWrite(bytes, now) =>
      var data := s.buf.data + bytes;
      assert data[..s.seen] == s.buf.data[..s.seen];
      if HasLine(s.buf.data) { FirstLineIsStable(s.buf.data, bytes); }
    case Look =>
      assert s.buf.data[..|s.buf.data|] == s.buf.data;
    case Finish =>
      assert s.buf.data[..|s.buf.data|] == s.buf.data;
    case _ =>
  }

  lemma {:induction false} RunKeepsInv(tr: seq<State>, i: nat)
    requires Run(tr) && i < |tr|
    ensures Inv(tr[i])
  {
    if i > 0 {
      RunKeepsInv(tr, i - 1);
      assert StepAt(tr, i - 1);
      var a :| Enabled(tr[i - 1], a) && tr[i] == Step(tr[i - 1], a);
      StepKeepsInv(tr[i - 1], a);
    }
  }

  /** Output only grows; once `done` is closed it is final; a first-line time, once set, stays. */
  ghost predicate Grows(s: State, s': State) {
    && s.buf.data <= s'.buf.data
    && (s.done ==> s'.done && s'.buf.data == s.buf.data)
    && (s.buf.firstLineAt.Some? ==> s'.buf.firstLineAt == s.buf.firstLineAt)
  }

  lemma {:induction false} RunGrows(tr: seq<State>, i: nat, j: nat)
    requires Run(tr) && i <= j < |tr|
    ensures Grows(tr[i], tr[j])
  {
    if i < j {
      RunGrows(tr, i, j - 1);
      assert StepAt(tr, j - 1);
    }
  }

  predicate Decided(r: Reader) { r.Line? || r.Cancelled? || r.Exited? }

  /** What the reader has decided stays, and it looks at the output only between writes. */
  lemma {:induction false} DecisionsStay(tr: seq<State>, i: nat, j: nat)
    requires Run(tr) && i <= j < |tr|
    ensures Decided(tr[i].reader) ==> tr[j].reader == tr[i].reader
    ensures i + 1 == j && tr[i].reader.Check? && tr[j].reader != tr[i].reader ==>
      !tr[i].writing && tr[j].seen == |tr[i].buf.data|
  {
    if i < j {
      DecisionsStay(tr, i, j - 1);
      assert StepAt(tr, j - 1);
    }
  }

  /**
   A reader waits on an unseen write only with a token pending or about to be sent by the write that holds the mutex.
   */
  lemma NoLostWakeUp(tr: seq<State>, i: nat)
    requires Run(tr) && i < |tr| && tr[i].reader.Select? && tr[i].seen < |tr[i].buf.data|
    ensures Enabled(tr[i], Wake) || (tr[i].writing && Enabled(Step(tr[i], EndWrite), Wake))
  {
    RunKeepsInv(tr, i);
  }

  /** How many wake-ups the reader has taken after `k` steps, and how many notifications the collector has sent. */
  ghost function Wakes(tr: seq<State>, k: nat): nat
    requires k < |tr|
  {
    if k == 0 then 0
    else
      var before, after := tr[k - 1].reader, tr[k].reader;
      Wakes(tr, k - 1) + if (before.Select? || before.Drain?) && after.Check? then 1 else 0
  }

  ghost function Notifications(tr: seq<State>, k: nat): nat
    requires k < |tr|
  {
    if k == 0 then 0 else Notifications(tr, k - 1) + if tr[k - 1].writing && !tr[k].writing then 1 else 0
  }

  /** The reader never spins: each of its wake-ups takes a token, and each token is the notification of a write. */
  lemma {:induction false} WakeUpsAreNotifications(tr: seq<State>, k: nat)
    requires Run(tr) && k < |tr|
    ensures Wakes(tr, k) + (if tr[k].buf.token then 1 else 0) <= Notifications(tr, k)
  {
    if k > 0 {
      WakeUpsAreNotifications(tr, k - 1);
      assert StepAt(tr, k - 1);
    }
  }

  /** "Exited before readiness" is reported only when the whole output, now and for ever, has no newline. */
  lemma ExitedMeansNoLine(tr: seq<State>, i: nat, j: nat)
    requires Run(tr) && i <= j < |tr| && tr[i].reader.Exited?
    ensures tr[j].buf.data == tr[i].buf.data && !HasLine(tr[j].buf.data)
  {
    RunKeepsInv(tr, i);
    RunGrows(tr, i, j);
  }

  /** The write that completed the first line. */
  ghost predicate LineArrives(tr: seq<State>, k: nat, at: Time)
    requires k + 1 < |tr|
  {
    && !HasLine(tr[k].buf.data) && HasLine(tr[k + 1].buf.data)
    && exists bytes :: Enabled(tr[k], BeginWrite(bytes, at)) && tr[k + 1] == Step(tr[k], BeginWrite(bytes, at))
  }

  lemma OnlyWritesSetTheTime(s: State, a: Action)
    requires Inv(s) && Enabled(s, a) && s.buf.firstLineAt.None? && Step(s, a).buf.firstLineAt.Some?
    ensures a.BeginWrite? && Step(s, a).buf.firstLineAt == Some(a.now)
    ensures !HasLine(s.buf.data) && HasLine(Step(s, a).buf.data)
  {
  }

  lemma {:induction false} LineArrived(tr: seq<State>, i: nat) returns (k: nat)
    requires Run(tr) && i < |tr| && tr[i].buf.firstLineAt.Some?
    ensures k + 1 <= i && LineArrives(tr, k, tr[i].buf.firstLineAt.value)
  {
    if i == 0 { assert false; }
    hide Inv, Step;
    RunKeepsInv(tr, i - 1);
    assert StepAt(tr, i - 1);
    if tr[i - 1].buf.firstLineAt.Some? {
      k := LineArrived(tr, i - 1);
    } else {
      k := i - 1;
      var a :| Enabled(tr[k], a) && tr[i] == Step(tr[k], a);
      OnlyWritesSetTheTime(tr[k], a);
      assert a == BeginWrite(a.bytes, a.now);
    }
  }

  /** A returned line is the first line of the output for ever, with the time of the write that brought its newline. */
  lemma ReturnedLineIsFirst(tr: seq<State>, i: nat, j: nat) returns (k: nat)
    requires Run(tr) && i <= j < |tr| && tr[i].reader.Line?
    ensures NEWLINE !in tr[i].reader.line && tr[i].reader.line + [NEWLINE] <= tr[j].buf.data
    ensures tr[i].reader.at.Some? && k + 1 <= i && LineArrives(tr, k, tr[i].reader.at.value)
  {
    RunKeepsInv(tr, i);
    RunGrows(tr, i, j);
    k := LineArrived(tr, i);
  }

  lemma LineBeyond(data: Bytes, k: nat)
    requires k <= |data| && HasLine(data) && !HasLine(data[..k])
    ensures k < |data|
  {
  }

  /** Once the output has a line, a waiting reader is woken: by a token already there, or by the write in progress. */
  lemma LineWakesTheReader(tr: seq<State>, i: nat)
    requires Run(tr) && i < |tr| && tr[i].reader.Select? && HasLine(tr[i].buf.data)
    ensures Enabled(tr[i], Wake) || (Enabled(tr[i], EndWrite) && Enabled(Step(tr[i], EndWrite), Wake))
  {
    RunKeepsInv(tr, i);
    LineBeyond(tr[i].buf.data, tr[i].seen);
    NoLostWakeUp(tr, i);
  }
}
