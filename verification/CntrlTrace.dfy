/** What the messages of a UUCP call say (cmd/bnu/cntrl.c): in every run, every answer tells what
    has happened at the other end, and it is read for the request or the file that it belongs to.
 */
module CntrlTrace {
  import opened Cntrl

  // ---------- one end's part of a step ----------

  function Own(s: Call, first: bool): Side {
    if first then s.x else s.y
  }

  /** What is on its way to an end. */
  function Box(s: Call, first: bool): seq<Item> {
    if first then s.toX else s.toY
  }

  function Acts(s: Call, e: Event): Outcome
    requires Can(s, e)
  {
    SideStep(Own(s, e.first), Box(s, e.first), e.choice)
  }

  /** What an end writes in a step. */
  function Writes(s: Call, e: Event, first: bool): seq<Item>
    requires Can(s, e)
  {
    if e.first == first then Acts(s, e).sent else []
  }

  /** What it takes from its line. */
  function Takes(s: Call, e: Event, first: bool): seq<Item>
    requires Can(s, e)
  {
    var box := Box(s, first);
    if e.first == first && box != [] && |Acts(s, e).inbox| < |box| then [box[0]] else []
  }

  /** The line is a queue. */
  lemma LineStep(s: Call, e: Event, first: bool)
    requires Can(s, e)
    ensures Takes(s, e, first) + Box(Step(s, e), first) == Box(s, first) + Writes(s, e, !first)
  {
    var box := Box(s, first);
    if e.first == first {
      InboxStep(Own(s, first), box, e.choice);
      assert box != [] ==> [box[0]] + box[1..] == box;
    }
  }

  lemma InboxStep(s: Side, inbox: seq<Item>, c: Choice)
    requires Enabled(s, inbox, c)
    ensures var o := SideStep(s, inbox, c); o.inbox == inbox || (inbox != [] && o.inbox == inbox[1..])
  {
  }

  // ---------- over runs ----------

  function Written(run: seq<Call>, events: seq<Event>, n: nat, first: bool): seq<Item>
    requires |run| == |events| + 1 && n <= |events| && forall i :: 0 <= i < |events| ==> Can(run[i], events[i])
  {
    if n == 0 then [] else Written(run, events, n - 1, first) + Writes(run[n - 1], events[n - 1], first)
  }

  function Taken(run: seq<Call>, events: seq<Event>, n: nat, first: bool): seq<Item>
    requires |run| == |events| + 1 && n <= |events| && forall i :: 0 <= i < |events| ==> Can(run[i], events[i])
  {
    if n == 0 then [] else Taken(run, events, n - 1, first) + Takes(run[n - 1], events[n - 1], first)
  }

  /** Nothing is lost, made up or reordered on the line. */
  lemma {:induction false} LineKeeps(run: seq<Call>, events: seq<Event>, n: nat, first: bool)
    requires IsRun(run, events) && run[0] == Start && n <= |events|
    ensures Taken(run, events, n, first) + Box(run[n], first) == Written(run, events, n, !first)
  {
    hide Can, Takes, Writes, Step;
    if n > 0 {
      LineKeeps(run, events, n - 1, first);
      var s, e := run[n - 1], events[n - 1];
      LineStep(s, e, first);
      var t := Taken(run, events, n - 1, first);
      Regroup(t, Takes(s, e, first), Box(run[n], first));
      Regroup(t, Box(s, first), Writes(s, e, !first));
    }
  }

  lemma Regroup(p: seq<Item>, q: seq<Item>, r: seq<Item>)
    ensures (p + q) + r == p + (q + r)
  {
  }

  // ---------- kinds of messages ----------

  /** The items of one kind, in order. */
  function Pick(p: Item -> bool, q: seq<Item>): seq<Item> {
    if q == [] then [] else (if p(q[0]) then [q[0]] else []) + Pick(p, q[1..])
  }

  lemma {:induction false} PickConcat(p: Item -> bool, q: seq<Item>, r: seq<Item>)
    ensures Pick(p, q + r) == Pick(p, q) + Pick(p, r)
  {
    if q == [] {
      assert q + r == r;
    } else {
      hide Pick;
      var head, rest := [q[0]], q[1..];
      PickConcat(p, rest, r);
      PickFirst(p, q[0], rest);
      PickFirst(p, q[0], rest + r);
      assert head + rest == q;
      Regroup(head, rest, r);
      Regroup(head, Pick(p, rest), Pick(p, r));
    }
  }

  lemma PickFirst(p: Item -> bool, i: Item, q: seq<Item>)
    ensures Pick(p, [i] + q) == if p(i) then [i] + Pick(p, q) else Pick(p, q)
  {
    assert ([i] + q)[1..] == q;
    assert [] + Pick(p, q) == Pick(p, q);
  }

  lemma PickShort(p: Item -> bool, q: seq<Item>)
    requires |q| <= 2
    ensures Pick(p, q) ==
      (if |q| > 0 && p(q[0]) then [q[0]] else []) + (if |q| > 1 && p(q[1]) then [q[1]] else [])
  {
    if |q| > 0 {
      assert Pick(p, q[1..]) == if |q| > 1 && p(q[1]) then [q[1]] else [] by {
        if |q| > 1 { assert q[1..][1..] == []; }
      }
    }
  }

  predicate Completion(i: Item) { i.Mesg? && i.kind == RQSTCMPT }
  predicate WholeFile(i: Item) { i == File(true) }
  predicate Request(i: Item) { i.Mesg? && i.flag.Plain? && Ask(i.kind) }
  predicate JobAnswer(i: Item) { i.Mesg? && !i.flag.Plain? && Job(i.kind) }
  predicate HangUpAnswer(i: Item) { i.Mesg? && !i.flag.Plain? && i.kind == HUP }

  /** What was picked from the line is what was written. */
  lemma LinePicks(run: seq<Call>, events: seq<Event>, n: nat, first: bool, p: Item -> bool)
    requires IsRun(run, events) && run[0] == Start && n <= |events|
    ensures Pick(p, Taken(run, events, n, first)) + Pick(p, Box(run[n], first)) ==
      Pick(p, Written(run, events, n, !first))
  {
    LineKeeps(run, events, n, first);
    PickConcat(p, Taken(run, events, n, first), Box(run[n], first));
  }

  // ---------- completions ----------

  /** An end has read a whole file in this step. */
  predicate FileComes(s: Call, e: Event, first: bool) {
    e.first == first && Own(s, first).at.ReceiveFile? && Box(s, first) != [] && Box(s, first)[0] == File(true)
  }

  /** What it has to say about that: the file is stored, it is larger than the end may write (N10),
      or it cannot be copied to its place (N5). */
  function Arrives(s: Call, e: Event, first: bool): seq<Item> {
    if !FileComes(s, e, first) then []
    else match e.choice
      case Stored => [Mesg(RQSTCMPT, Yes)]
      case TooBig => [Mesg(RQSTCMPT, No(10))]
      case NotCopied => [Mesg(RQSTCMPT, No(5))]
      case _ => []
  }

  function Arrived(run: seq<Call>, events: seq<Event>, n: nat, first: bool): seq<Item>
    requires |run| == |events| + 1 && n <= |events|
  {
    if n == 0 then [] else Arrived(run, events, n - 1, first) + Arrives(run[n - 1], events[n - 1], first)
  }

  lemma CompletionStep(s: Call, e: Event, first: bool)
    requires Can(s, e)
    ensures Pick(Completion, Writes(s, e, first)) == Arrives(s, e, first)
  {
    PickShort(Completion, Writes(s, e, first));
  }

  lemma {:induction false} CompletionsWritten(run: seq<Call>, events: seq<Event>, n: nat, first: bool)
    requires IsRun(run, events) && n <= |events|
    ensures Pick(Completion, Written(run, events, n, first)) == Arrived(run, events, n, first)
  {
    hide Can, Step, Writes, Arrives;
    if n > 0 {
      CompletionsWritten(run, events, n - 1, first);
      CompletionStep(run[n - 1], events[n - 1], first);
      PickConcat(Completion, Written(run, events, n - 1, first), Writes(run[n - 1], events[n - 1], first));
    }
  }

  /** In every run: the completions that an end has read, and those on their way to it, say in order
      what became of the files that the other end has received. */
  lemma CompletionsAreTrue(run: seq<Call>, events: seq<Event>, n: nat, first: bool)
    requires IsRun(run, events) && run[0] == Start && n <= |events|
    ensures Pick(Completion, Taken(run, events, n, first)) + Pick(Completion, Box(run[n], first)) ==
      Arrived(run, events, n, !first)
  {
    LinePicks(run, events, n, first, Completion);
    CompletionsWritten(run, events, n, !first);
  }

  /** The files that an end takes are those that it has something to say about. */
  lemma FileTaken(s: Call, e: Event, first: bool)
    requires Good(s) && Can(s, e) && !Broken(Own(Step(s, e), first).at)
    ensures |Pick(WholeFile, Takes(s, e, first))| == |Arrives(s, e, first)|
  {
    PickShort(WholeFile, Takes(s, e, first));
  }

  lemma {:induction false} FilesArrive(run: seq<Call>, events: seq<Event>, n: nat, first: bool)
    requires IsRun(run, events) && run[0] == Start && n <= |events|
    requires forall i :: 0 <= i < n ==> !events[i].choice.SeekFails?
    ensures |Pick(WholeFile, Taken(run, events, n, first))| == |Arrived(run, events, n, first)|
  {
    hide Can, Step, Takes, Arrives, Good, Safe;
    if n > 0 {
      FilesArrive(run, events, n - 1, first);
      RunKeeps(run, events, n - 1);
      NothingBreaks(run, events, n, first);
      FileTaken(run[n - 1], events[n - 1], first);
      PickConcat(WholeFile, Taken(run, events, n - 1, first), Takes(run[n - 1], events[n - 1], first));
    }
  }

  lemma NothingBreaks(run: seq<Call>, events: seq<Event>, n: nat, first: bool)
    requires IsRun(run, events) && run[0] == Start && n <= |events|
    requires forall i :: 0 <= i < n ==> !events[i].choice.SeekFails?
    ensures !Broken(Own(run[n], first).at)
  {
    ConversationIsSafe(run, events, n);
  }

  /** The files that an end has written are those that the other has received, and those on their
      way: so the k-th completion that it reads is about the k-th file that it has written. */
  lemma FilesAreReceived(run: seq<Call>, events: seq<Event>, n: nat, first: bool)
    requires IsRun(run, events) && run[0] == Start && n <= |events|
    requires forall i :: 0 <= i < n ==> !events[i].choice.SeekFails?
    ensures |Pick(WholeFile, Written(run, events, n, first))| ==
      |Arrived(run, events, n, !first)| + |Pick(WholeFile, Box(run[n], !first))|
  {
    LinePicks(run, events, n, !first, WholeFile);
    FilesArrive(run, events, n, !first);
  }

  /** An end that waits for a completion and has one to read: it is that of the file that it has
      written last, and says what became of it. */
  lemma SenderLearns(run: seq<Call>, events: seq<Event>, n: nat, first: bool)
    requires IsRun(run, events) && run[0] == Start && n <= |events|
    requires forall i :: 0 <= i < n ==> !events[i].choice.SeekFails?
    requires Own(run[n], first).at.AwaitDone? && Box(run[n], first) != []
    ensures var box, said := Box(run[n], first), Arrived(run, events, n, !first);
      && |said| == |Pick(WholeFile, Written(run, events, n, first))|
      && |said| == |Pick(Completion, Taken(run, events, n, first))| + 1
      && said[|said| - 1] == box[0] && Completion(box[0])
  {
    CompletionsAreTrue(run, events, n, first);
    FilesAreReceived(run, events, n, first);
    RunKeeps(run, events, n);
    WaitingBox(run[n], first);
  }

  /** What is on the lines when an end can read its completion. */
  lemma WaitingBox(s: Call, first: bool)
    requires Good(s) && Own(s, first).at.AwaitDone? && Box(s, first) != []
    ensures Pick(WholeFile, Box(s, !first)) == []
    ensures Completion(Box(s, first)[0]) && Pick(Completion, Box(s, first)) == [Box(s, first)[0]]
  {
    assert Box(s, !first) == [] && |Box(s, first)| <= 2;
    PickShort(Completion, Box(s, first));
  }

  // ---------- answers ----------

  /** A job turned down or taken on in this step, by the end that was asked. */
  function Decides(s: Call, e: Event, first: bool): seq<Item> {
    var box := Box(s, first);
    if e.first != first || box == [] || !e.choice.Read? || !Request(box[0]) || !Job(box[0].kind) then []
    else [Mesg(box[0].kind, if e.choice.accept then Yes else No(e.choice.code))]
  }

  function Decided(run: seq<Call>, events: seq<Event>, n: nat, first: bool): seq<Item>
    requires |run| == |events| + 1 && n <= |events|
  {
    if n == 0 then [] else Decided(run, events, n - 1, first) + Decides(run[n - 1], events[n - 1], first)
  }

  lemma AnswerStep(s: Call, e: Event, first: bool)
    requires Good(s) && Can(s, e) && !e.choice.SeekFails?
    ensures Pick(JobAnswer, Writes(s, e, first)) == Decides(s, e, first)
  {
    hide Pick;
    PickShort(JobAnswer, Writes(s, e, first));
    if e.first == first && e.choice.Read? && Request(Box(s, first)[0]) { RequestHeard(s, e, first); }
  }

  /** A request is read by an end that has nothing else to do. */
  lemma RequestHeard(s: Call, e: Event, first: bool)
    requires Good(s) && Can(s, e) && e.first == first && e.choice.Read? && Request(Box(s, first)[0])
    ensures Own(s, first) == Side(SLAVE, Top)
  {
  }

  lemma {:induction false} AnswersWritten(run: seq<Call>, events: seq<Event>, n: nat, first: bool)
    requires IsRun(run, events) && run[0] == Start && n <= |events|
    requires forall i :: 0 <= i < n ==> !events[i].choice.SeekFails?
    ensures Pick(JobAnswer, Written(run, events, n, first)) == Decided(run, events, n, first)
  {
    hide Can, Step, Writes, Decides, Good;
    if n > 0 {
      AnswersWritten(run, events, n - 1, first);
      RunKeeps(run, events, n - 1);
      AnswerStep(run[n - 1], events[n - 1], first);
      PickConcat(JobAnswer, Written(run, events, n - 1, first), Writes(run[n - 1], events[n - 1], first));
    }
  }

  /** In every run: the answers to its jobs that an end has read, and those on their way to it, are
      in order what the other end has decided, with its reasons. */
  lemma AnswersAreTrue(run: seq<Call>, events: seq<Event>, n: nat, first: bool)
    requires IsRun(run, events) && run[0] == Start && n <= |events|
    requires forall i :: 0 <= i < n ==> !events[i].choice.SeekFails?
    ensures Pick(JobAnswer, Taken(run, events, n, first)) + Pick(JobAnswer, Box(run[n], first)) ==
      Decided(run, events, n, !first)
  {
    LinePicks(run, events, n, first, JobAnswer);
    AnswersWritten(run, events, n, !first);
  }

  // ---------- requests ----------

  /** What a master asks for when it has looked for work. */
  function Wants(s: Call, e: Event, first: bool): seq<Item> {
    if e.first != first then []
    else match e.choice
      case WantSend => [Mesg(SNDFILE, Plain)]
      case WantReceive => [Mesg(RCVFILE, Plain)]
      case NoWork => [Mesg(HUP, Plain)]
      case _ => []
  }

  function Wanted(run: seq<Call>, events: seq<Event>, n: nat, first: bool): seq<Item>
    requires |run| == |events| + 1 && n <= |events|
  {
    if n == 0 then [] else Wanted(run, events, n - 1, first) + Wants(run[n - 1], events[n - 1], first)
  }

  lemma RequestStep(s: Call, e: Event, first: bool)
    requires Can(s, e)
    ensures Pick(Request, Writes(s, e, first)) == Wants(s, e, first)
  {
    PickShort(Request, Writes(s, e, first));
  }

  lemma {:induction false} RequestsWritten(run: seq<Call>, events: seq<Event>, n: nat, first: bool)
    requires IsRun(run, events) && n <= |events|
    ensures Pick(Request, Written(run, events, n, first)) == Wanted(run, events, n, first)
  {
    hide Can, Step, Writes, Wants;
    if n > 0 {
      RequestsWritten(run, events, n - 1, first);
      RequestStep(run[n - 1], events[n - 1], first);
      PickConcat(Request, Written(run, events, n - 1, first), Writes(run[n - 1], events[n - 1], first));
    }
  }

  /** Every request taken is decided or is one to hang up. */
  predicate JobRequest(i: Item) { Request(i) && Job(i.kind) }

  lemma RequestTaken(s: Call, e: Event, first: bool)
    requires Good(s) && Can(s, e) && !Broken(Own(Step(s, e), first).at)
    ensures |Pick(JobRequest, Takes(s, e, first))| == |Decides(s, e, first)|
  {
    PickShort(JobRequest, Takes(s, e, first));
  }

  lemma {:induction false} RequestsDecided(run: seq<Call>, events: seq<Event>, n: nat, first: bool)
    requires IsRun(run, events) && run[0] == Start && n <= |events|
    requires forall i :: 0 <= i < n ==> !events[i].choice.SeekFails?
    ensures |Pick(JobRequest, Taken(run, events, n, first))| == |Decided(run, events, n, first)|
  {
    hide Can, Step, Takes, Decides, Good, Safe;
    if n > 0 {
      RequestsDecided(run, events, n - 1, first);
      RunKeeps(run, events, n - 1);
      NothingBreaks(run, events, n, first);
      RequestTaken(run[n - 1], events[n - 1], first);
      PickConcat(JobRequest, Taken(run, events, n - 1, first), Takes(run[n - 1], events[n - 1], first));
    }
  }

  /** A master that waits for the answer to a job and has one to read: it is the answer to the job
      that it has asked for last, and says what the other end has decided. */
  lemma MasterLearns(run: seq<Call>, events: seq<Event>, n: nat, first: bool)
    requires IsRun(run, events) && run[0] == Start && n <= |events|
    requires forall i :: 0 <= i < n ==> !events[i].choice.SeekFails?
    requires Own(run[n], first).at.AwaitReply? && Job(Own(run[n], first).at.kind) && Box(run[n], first) != []
    requires Own(run[n], first).role == MASTER && Box(run[n], first)[0].Mesg? && Box(run[n], first)[0].kind != HUP
    ensures var box, said := Box(run[n], first), Decided(run, events, n, !first);
      && |said| == |Pick(JobRequest, Written(run, events, n, first))| > 0
      && said[|said| - 1] == box[0] && box[0].kind == Own(run[n], first).at.kind
  {
    AnswersAreTrue(run, events, n, first);
    LinePicks(run, events, n, !first, JobRequest);
    RequestsDecided(run, events, n, !first);
    RunKeeps(run, events, n);
    AnswerBox(run[n], first);
  }

  lemma AnswerBox(s: Call, first: bool)
    requires Good(s) && Own(s, first).at.AwaitReply? && Job(Own(s, first).at.kind) && Box(s, first) != []
    requires Own(s, first).role == MASTER && Box(s, first)[0].Mesg? && Box(s, first)[0].kind != HUP
    ensures Pick(JobRequest, Box(s, !first)) == []
    ensures var box := Box(s, first); box[0].kind == Own(s, first).at.kind && Pick(JobAnswer, box) == [box[0]]
  {
    var box := Box(s, first);
    assert Box(s, !first) == [] && |box| <= 2;
    PickShort(JobAnswer, box);
  }

  /** A master whose job is turned down goes on to the next one; only if the other end cannot make a
      temporary file (N4), it ends the call. */
  lemma RefusalHeard(s: Call, e: Event, first: bool)
    requires Good(s) && Can(s, e) && e.first == first && e.choice.Read?
    requires JobAnswer(Box(s, first)[0]) && Box(s, first)[0].flag.No?
    ensures var m := Box(s, first)[0];
      Own(Step(s, e), first) ==
        Side(MASTER, if m == Mesg(SNDFILE, No(4)) then Lost(AwaitReply(SNDFILE)) else Top)
  {
    AnsweredMaster(s, first);
  }

  lemma AnsweredMaster(s: Call, first: bool)
    requires Good(s) && Box(s, first) != [] && JobAnswer(Box(s, first)[0]) && Box(s, first)[0].flag.No?
    requires Waiting(Own(s, first)) && !Own(s, first).at.ReceiveFile?
    ensures Own(s, first) == Side(MASTER, AwaitReply(Box(s, first)[0].kind))
  {
  }

  // ---------- hanging up ----------

  /** An end that is asked to hang up says no exactly if it has work. */
  function HangsUp(s: Call, e: Event, first: bool): seq<Item> {
    var box := Box(s, first);
    if e.first != first || box == [] || !e.choice.Read? then []
    else if box[0] == Mesg(HUP, Plain) then [Mesg(HUP, if e.choice.moreWork then No(0) else Yes)]
    else if box[0] == Mesg(HUP, Yes) then [Mesg(HUP, Yes)]
    else []
  }

  lemma HangUpSaid(s: Call, e: Event, first: bool)
    requires Good(s) && Can(s, e)
    ensures Pick(HangUpAnswer, Writes(s, e, first)) == HangsUp(s, e, first)
  {
    hide Pick;
    PickShort(HangUpAnswer, Writes(s, e, first));
    if e.first == first && e.choice.Read? && Box(s, first)[0].Mesg? && Box(s, first)[0].kind == HUP {
      if Request(Box(s, first)[0]) { RequestHeard(s, e, first); } else { HangUpHeard(s, e, first); }
    }
  }

  lemma HangUpRoles(s: Call, e: Event, first: bool)
    requires Good(s) && Can(s, e) && e.first == first && e.choice.Read?
    ensures Box(s, first)[0] == Mesg(HUP, Plain) && e.choice.moreWork ==> Own(Step(s, e), first) == Side(MASTER, Top)
    ensures Box(s, first)[0] == Mesg(HUP, No(0)) ==> Own(Step(s, e), first) == Side(SLAVE, Top)
  {
    var m := Box(s, first)[0];
    if m == Mesg(HUP, Plain) {
      RequestHeard(s, e, first);
    } else if m == Mesg(HUP, No(0)) {
      HangUpHeard(s, e, first);
    }
  }

  /** And an end that is asked and has work is the master then. */
  lemma HangUpStep(s: Call, e: Event, first: bool)
    requires Good(s) && Can(s, e)
    ensures Pick(HangUpAnswer, Writes(s, e, first)) == HangsUp(s, e, first)
    ensures HangsUp(s, e, first) == [Mesg(HUP, No(0))] ==> Own(Step(s, e), first) == Side(MASTER, Top)
    ensures e.first == first && e.choice.Read? && Box(s, first)[0] == Mesg(HUP, No(0)) ==>
      Own(Step(s, e), first) == Side(SLAVE, Top)
  {
    hide Pick, Writes, Step, Good;
    HangUpSaid(s, e, first);
    if e.first == first && e.choice.Read? { HangUpRoles(s, e, first); }
  }

  lemma HangUpHeard(s: Call, e: Event, first: bool)
    requires Good(s) && Can(s, e) && e.first == first && e.choice.Read?
    requires HangUpAnswer(Box(s, first)[0])
    ensures Own(s, first).at == AwaitReply(HUP) && (Own(s, first).role == MASTER || Box(s, first)[0].flag.Yes?)
  {
  }

  // ---------- which way a file goes ----------

  predicate SendAccepted(i: Item) { i == Mesg(SNDFILE, Yes) }
  predicate ReceiveAccepted(i: Item) { i == Mesg(RCVFILE, Yes) }
  predicate AnyFile(i: Item) { i.File? }

  function One(b: bool): nat {
    if b then 1 else 0
  }

  /** What an end has taken from its line when `o` is left. */
  function Gone(inbox: seq<Item>, o: Outcome): seq<Item> {
    if inbox != [] && |o.inbox| < |inbox| then [inbox[0]] else []
  }

  /** An end begins to send when its request to send has been accepted, or when it accepts one to
      receive, and stops when it has written the file. */
  predicate SendsFor(at: Place, o: Outcome, gone: seq<Item>) {
    |Pick(AnyFile, o.sent)| + One(Base(o.side.at).SendFile?) ==
      One(Base(at).SendFile?) + |Pick(SendAccepted, gone)| + |Pick(ReceiveAccepted, o.sent)|
  }

  /** The rest of what an end does with a message has nothing to do with files that it writes. */
  lemma ReadSends(s: Side, inbox: seq<Item>, c: Choice)
    requires Enabled(s, inbox, c) && c.Read? && !Broken(SideStep(s, inbox, c).side.at)
    requires s.at.AwaitDone? ==> Completion(inbox[0])
    ensures var o := SideStep(s, inbox, c); SendsFor(s.at, o, Gone(inbox, o))
  {
    var o := SideStep(s, inbox, c);
    PickShort(AnyFile, o.sent);
    PickShort(SendAccepted, Gone(inbox, o));
    PickShort(ReceiveAccepted, o.sent);
    hide Pick;
    ReadPlaces(s, inbox, c);
    hide SideStep;
  }

  /** Where reading a message leads, and what it puts on the line. */
  lemma ReadPlaces(s: Side, inbox: seq<Item>, c: Choice)
    requires Enabled(s, inbox, c) && c.Read? && !Broken(SideStep(s, inbox, c).side.at)
    requires s.at.AwaitDone? ==> Completion(inbox[0])
    ensures !Base(s.at).SendFile?
    ensures var o := SideStep(s, inbox, c);
      && |o.sent| <= 1 && (|o.sent| == 1 ==> o.sent[0].Mesg?)
      && (Base(o.side.at).SendFile? <==>
            (inbox[0] == Mesg(SNDFILE, Yes) && |o.inbox| < |inbox|) || o.sent == [Mesg(RCVFILE, Yes)])
      && !((inbox[0] == Mesg(SNDFILE, Yes) && |o.inbox| < |inbox|) && o.sent == [Mesg(RCVFILE, Yes)])
  {
  }

  lemma OtherSends(s: Side, inbox: seq<Item>, c: Choice)
    requires Enabled(s, inbox, c) && !c.Read? && !Broken(SideStep(s, inbox, c).side.at)
    ensures var o := SideStep(s, inbox, c); SendsFor(s.at, o, Gone(inbox, o))
  {
    var o := SideStep(s, inbox, c);
    hide Pick;
    PickShort(AnyFile, o.sent);
    PickShort(SendAccepted, Gone(inbox, o));
    PickShort(ReceiveAccepted, o.sent);
  }

  lemma SendsStep(s: Call, e: Event, first: bool)
    requires Good(s) && Can(s, e) && !Broken(Own(Step(s, e), first).at)
    ensures |Pick(AnyFile, Writes(s, e, first))| + One(Base(Own(Step(s, e), first).at).SendFile?) ==
      One(Base(Own(s, first).at).SendFile?) + |Pick(SendAccepted, Takes(s, e, first))|
      + |Pick(ReceiveAccepted, Writes(s, e, first))|
  {
    if e.first == first {
      if e.choice.Read? {
        if Own(s, first).at.AwaitDone? { WaitingBox(s, first); }
        hide SideStep, Enabled, Pick, Base, Good;
        ReadSends(Own(s, first), Box(s, first), e.choice);
      } else {
        hide SideStep, Enabled, Pick, Base, Good;
        OtherSends(Own(s, first), Box(s, first), e.choice);
      }
    }
  }

  /** In every run, an end writes one file for each of its own requests to send that was accepted, and
      one for each request of the other end to receive that it has accepted, but for the one that it
      is about to write. */
  lemma {:induction false} FilesGoOut(run: seq<Call>, events: seq<Event>, n: nat, first: bool)
    requires IsRun(run, events) && run[0] == Start && n <= |events|
    requires forall i :: 0 <= i < n ==> !events[i].choice.SeekFails?
    ensures |Pick(AnyFile, Written(run, events, n, first))| + One(Base(Own(run[n], first).at).SendFile?) ==
      |Pick(SendAccepted, Taken(run, events, n, first))| + |Pick(ReceiveAccepted, Written(run, events, n, first))|
  {
    if n > 0 {
      hide Can, Step, Takes, Writes, Good, Safe, Base;
      var s, e := run[n - 1], events[n - 1];
      FilesGoOut(run, events, n - 1, first);
      RunKeeps(run, events, n - 1);
      NothingBreaks(run, events, n, first);
      SendsStep(s, e, first);
      PickConcat(AnyFile, Written(run, events, n - 1, first), Writes(s, e, first));
      PickConcat(SendAccepted, Taken(run, events, n - 1, first), Takes(s, e, first));
      PickConcat(ReceiveAccepted, Written(run, events, n - 1, first), Writes(s, e, first));
    }
  }

  // ---------- how long a sender waits ----------

  /** Where an end is when it has tried to read these messages one after the other. */
  function Tried(s: Side, q: seq<Item>, c: Choice): Side
    requires c.Read?
    decreases |q|
  {
    if q == [] || !s.at.AwaitDone? then s else Tried(ReadMessage(s, q, c).side, q[1..], c)
  }

  /** A sender of a file of `size` bytes passes over size / 1024 messages that are no completion, and
      gives up at the next. */
  lemma {:induction false} SenderWaits(role: Role, size: nat, inbox: seq<Item>, junk: seq<Item>, c: Choice)
    requires c.Read? && forall i :: 0 <= i < |junk| ==> !Completion(junk[i])
    ensures var s := SideStep(Side(role, SendFile), inbox, Sent(size)).side;
      Tried(s, junk, c) ==
        Side(role, if |junk| <= size / 1024 then AwaitDone(size / 1024 - |junk|) else BadRead)
  {
    TriesLeft(Side(role, AwaitDone(size / 1024)), size / 1024, junk, c);
  }

  lemma {:induction false} TriesLeft(s: Side, tries: nat, junk: seq<Item>, c: Choice)
    requires c.Read? && s.at == AwaitDone(tries) && forall i :: 0 <= i < |junk| ==> !Completion(junk[i])
    ensures Tried(s, junk, c) == s.(at := if |junk| <= tries then AwaitDone(tries - |junk|) else BadRead)
    decreases |junk|
  {
    if junk != [] {
      assert !Completion(junk[0]);
      if tries > 0 { TriesLeft(s.(at := AwaitDone(tries - 1)), tries - 1, junk[1..], c); }
    }
  }
}
