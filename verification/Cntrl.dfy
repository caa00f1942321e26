/** The conversation between the two ends of a UUCP call (`cntrl` in cmd/bnu/cntrl.c): who is
    master, who may speak next, and how the two hang up.

    Everything the file system and the permission records decide is a `Choice`. A step is one
    stretch of the program between two points where it waits.
 */
module Cntrl {
  datatype Role = MASTER | SLAVE
  /** The first letter of a message. */
  datatype Kind = HUP | SNDFILE | RCVFILE | RQSTCMPT | XUUCP | Other
  /** What follows it: Y, N with a reason, or anything else. */
  datatype Flag = Yes | No(code: nat) | Plain
  datatype Item = Mesg(kind: Kind, flag: Flag) | File(whole: bool)

  /** Where an end is. The last five are ends of the program. */
  datatype Place =
    | Top
    | AwaitReply(kind: Kind)
    | SendFile
    | ReceiveFile
    | AwaitDone(tries: nat)
    | Returned
    | Lost(at: Place)
    | WrongRole
    | BadRead
    | NotUnderstood

  datatype Side = Side(role: Role, at: Place)
  datatype Outcome = Outcome(side: Side, inbox: seq<Item>, sent: seq<Item>)

  const EM_NOTMP: nat := 4
  const EM_RMTCP: nat := 5
  const EM_SEEK: nat := 7
  const EM_ULIMIT: nat := 10

  datatype Choice =
    | NoWork | Skip | WantSend | WantReceive | SeekFails   // the master's next job
    | Read(accept: bool, code: nat, moreWork: bool)        // take a message and answer it
    | Sent(size: nat) | PartlySent                         // writing a file
    | Stored | NotCopied | TooBig                          // reading a file
    | GiveUp                                               // any failure that ends the call

  predicate Ended(p: Place) {
    p.Returned? || p.Lost? || p.WrongRole? || p.BadRead? || p.NotUnderstood?
  }

  /** Waiting for something to arrive. */
  predicate Waiting(s: Side) {
    s.at.AwaitReply? || s.at.AwaitDone? || s.at.ReceiveFile? || (s.at.Top? && s.role == SLAVE)
  }

  /** The choices that the program can meet in this place. */
  predicate Enabled(s: Side, inbox: seq<Item>, c: Choice) {
    match c
    case NoWork | Skip | WantSend | WantReceive | SeekFails => s.at.Top? && s.role == MASTER
    case Read(_, _, _) => Waiting(s) && !s.at.ReceiveFile? && inbox != []
    case Sent(_) | PartlySent => s.at.SendFile?
    case Stored | NotCopied | TooBig => s.at.ReceiveFile? && inbox != []
    case GiveUp => !Ended(s.at)
  }

  // ---------- one end ----------

  /** The `switch` on a message. `keep` is the inbox with the message, `rest` without it. */
  function Process(role: Role, m: Item, c: Choice, at: Place, keep: seq<Item>, rest: seq<Item>): Outcome
    requires m.Mesg? && c.Read?
  {
    match m.kind
    case RQSTCMPT => Outcome(Side(role, Top), rest, [])
    case HUP =>
      if m.flag.Yes? then Outcome(Side(role, Returned), rest, [Mesg(HUP, Yes)])
      else if m.flag.No? then
        if role == MASTER then Outcome(Side(SLAVE, Top), rest, []) else Outcome(Side(role, WrongRole), rest, [])
      else if !c.moreWork then Outcome(Side(role, AwaitReply(HUP)), rest, [Mesg(HUP, Yes)])
      else Outcome(Side(MASTER, Top), rest, [Mesg(HUP, No(0))])
    case XUUCP => Outcome(Side(role, Top), rest, [Mesg(XUUCP, No(0))])
    case SNDFILE =>
      if m.flag.No? then
        if role != MASTER then Outcome(Side(role, WrongRole), rest, [])
        else if m.flag.code == EM_NOTMP then Outcome(Side(role, Lost(at)), keep, [])
        else Outcome(Side(role, Top), rest, [])
      else if m.flag.Yes? then
        Outcome(Side(role, if role == MASTER then SendFile else WrongRole), rest, [])
      else if role != SLAVE then Outcome(Side(role, WrongRole), rest, [])
      else if c.accept then Outcome(Side(role, ReceiveFile), rest, [Mesg(SNDFILE, Yes)])
      else Outcome(Side(role, Top), rest, [Mesg(SNDFILE, No(c.code))])
    case RCVFILE =>
      if m.flag.No? then Outcome(Side(role, if role == MASTER then Top else WrongRole), rest, [])
      else if m.flag.Yes? then Outcome(Side(role, if role == MASTER then ReceiveFile else WrongRole), rest, [])
      else if role != SLAVE then Outcome(Side(role, WrongRole), rest, [])
      else if c.accept then Outcome(Side(role, SendFile), rest, [Mesg(RCVFILE, Yes)])
      else Outcome(Side(role, Top), rest, [Mesg(RCVFILE, No(c.code))])
    case Other => Outcome(Side(role, NotUnderstood), rest, [])
  }

  /** `rmesg`, with the retries of the wait for a completion, and then the `switch`. */
  function ReadMessage(s: Side, inbox: seq<Item>, c: Choice): Outcome
    requires Waiting(s) && !s.at.ReceiveFile? && inbox != [] && c.Read?
  {
    var m, rest := inbox[0], inbox[1..];
    var expected :=
      m.Mesg? && match s.at {
        case AwaitReply(k) => m.kind == k
        case AwaitDone(_) => m.kind == RQSTCMPT
        case _ => true
      };
    if expected then Process(s.role, m, c, s.at, inbox, rest)
    else if s.at.AwaitDone? && s.at.tries > 0 then Outcome(s.(at := AwaitDone(s.at.tries - 1)), rest, [])
    else Outcome(s.(at := BadRead), rest, [])
  }

  /** The end of `Rddata`: an end that gives up leaves its inbox as it is. */
  function TakeFile(s: Side, inbox: seq<Item>, c: Choice): Outcome
    requires s.at.ReceiveFile? && inbox != []
  {
    if inbox[0].Mesg? then Outcome(s.(at := BadRead), inbox[1..], [])
    else if !inbox[0].whole then Outcome(s.(at := Lost(s.at)), inbox, [])
    else
      var flag := if c.TooBig? then No(EM_ULIMIT) else if c.NotCopied? then No(EM_RMTCP) else Yes;
      Outcome(s.(at := Top), inbox[1..], [Mesg(RQSTCMPT, flag)])
  }

  function SideStep(s: Side, inbox: seq<Item>, c: Choice): Outcome
    requires Enabled(s, inbox, c)
  {
    match c
    case NoWork => Outcome(s.(at := AwaitReply(HUP)), inbox, [Mesg(HUP, Plain)])
    case Skip => Outcome(s, inbox, [])
    case WantSend => Outcome(s.(at := AwaitReply(SNDFILE)), inbox, [Mesg(SNDFILE, Plain)])
    case WantReceive => Outcome(s.(at := AwaitReply(RCVFILE)), inbox, [Mesg(RCVFILE, Plain)])
    case SeekFails => Outcome(s, inbox, [Mesg(SNDFILE, No(EM_SEEK))])
    case Read(_, _, _) => ReadMessage(s, inbox, c)
    case Sent(size) => Outcome(s.(at := AwaitDone(size / 1024)), inbox, [File(true)])
    case PartlySent => Outcome(s.(at := Lost(AwaitDone(0))), inbox, [File(false)])
    case Stored | NotCopied | TooBig => TakeFile(s, inbox, c)
    case GiveUp => Outcome(s.(at := Lost(s.at)), inbox, [])
  }

  // ---------- the two ends ----------

  /** The two ends, and what is on its way to each. */
  datatype Call = Call(x: Side, y: Side, toX: seq<Item>, toY: seq<Item>)

  function Flip(s: Call): Call {
    Call(s.y, s.x, s.toY, s.toX)
  }

  function StepX(s: Call, c: Choice): Call
    requires Enabled(s.x, s.toX, c)
  {
    var o := SideStep(s.x, s.toX, c);
    Call(o.side, s.y, o.inbox, s.toY + o.sent)
  }

  datatype Event = Event(first: bool, choice: Choice)

  predicate Can(s: Call, e: Event) {
    if e.first then Enabled(s.x, s.toX, e.choice) else Enabled(s.y, s.toY, e.choice)
  }

  function Step(s: Call, e: Event): Call
    requires Can(s, e)
  {
    if e.first then StepX(s, e.choice) else Flip(StepX(Flip(s), e.choice))
  }

  /** The caller begins as the master. */
  const Start: Call := Call(Side(MASTER, Top), Side(SLAVE, Top), [], [])

  ghost predicate IsRun(run: seq<Call>, events: seq<Event>) {
    && |run| == |events| + 1
    && forall i :: 0 <= i < |events| ==> Can(run[i], events[i]) && run[i + 1] == Step(run[i], events[i])
  }

  // ---------- what every step keeps ----------

  /** An end that has given up counts as where it was. */
  function Base(p: Place): Place {
    if p.Lost? then p.at else p
  }

  predicate OneFile(q: seq<Item>) {
    |q| == 1 && q[0].File?
  }

  predicate Reply(q: seq<Item>, k: Kind) {
    |q| == 1 && q[0].Mesg? && q[0].kind == k
  }

  /** The slave has nothing to do but to read `rest`, perhaps after a completion. */
  predicate Idle(p: Place, inbox: seq<Item>, rest: seq<Item>) {
    || (p.Top? && inbox == rest)
    || (p.AwaitDone? && |inbox| > 0 && inbox[0].Mesg? && inbox[0].kind == RQSTCMPT && inbox[1..] == rest)
  }

  predicate Job(k: Kind) { k == SNDFILE || k == RCVFILE }
  predicate Ask(k: Kind) { Job(k) || k == HUP }

  /** The master is between jobs, or has just asked for something. */
  predicate Asking(x: Place, y: Place, toX: seq<Item>, toY: seq<Item>) {
    && toX == []
    && ((x.Top? && Idle(y, toY, [])) || (x.AwaitReply? && Ask(x.kind) && Idle(y, toY, [Mesg(x.kind, Plain)])))
  }

  /** The slave has turned the job down. */
  predicate Denied(x: Place, y: Place, toX: seq<Item>, toY: seq<Item>) {
    x.AwaitReply? && Job(x.kind) && y.Top? && toY == [] && Reply(toX, x.kind) && toX[0].flag.No?
  }

  /** A file goes from the master to the slave. */
  predicate Sending(x: Place, y: Place, toX: seq<Item>, toY: seq<Item>) {
    || (x == AwaitReply(SNDFILE) && y.ReceiveFile? && toY == [] && toX == [Mesg(SNDFILE, Yes)])
    || (x.SendFile? && y.ReceiveFile? && toY == [] && toX == [])
    || (x.AwaitDone? && y.ReceiveFile? && OneFile(toY) && toX == [])
    || (x.AwaitDone? && y.Top? && toY == [] && Reply(toX, RQSTCMPT))
  }

  /** A file goes from the slave to the master. */
  predicate Fetching(x: Place, y: Place, toX: seq<Item>, toY: seq<Item>) {
    && toY == []
    && (|| (x == AwaitReply(RCVFILE) && y.SendFile? && toX == [Mesg(RCVFILE, Yes)])
        || (x == AwaitReply(RCVFILE) && y.AwaitDone? && |toX| == 2 && toX[0] == Mesg(RCVFILE, Yes) && toX[1].File?)
        || (x.ReceiveFile? && y.SendFile? && toX == [])
        || (x.ReceiveFile? && y.AwaitDone? && OneFile(toX)))
  }

  /** Both want to hang up. */
  predicate Leaving(x: Place, y: Place, toX: seq<Item>, toY: seq<Item>) {
    || (x == AwaitReply(HUP) && y == AwaitReply(HUP) && toX == [Mesg(HUP, Yes)] && toY == [])
    || (x.Returned? && y == AwaitReply(HUP) && toX == [] && toY == [Mesg(HUP, Yes)])
    || (x.Returned? && y.Returned? && toX == [Mesg(HUP, Yes)] && toY == [])
  }

  /** The slave has taken over, and the master has not read it yet. */
  predicate Swapping(x: Place, y: Place, toX: seq<Item>, toY: seq<Item>) {
    && x == AwaitReply(HUP) && toY == [] && |toX| > 0 && toX[0].Mesg? && toX[0].kind == HUP && toX[0].flag.No?
    && ((y.Top? && |toX| == 1) || (y.AwaitReply? && Ask(y.kind) && toX[1..] == [Mesg(y.kind, Plain)]))
  }

  /** `x` leads. */
  predicate Leads(s: Call) {
    var x, y := Base(s.x.at), Base(s.y.at);
    && s.x.role == MASTER
    && if s.y.role == MASTER then Swapping(x, y, s.toX, s.toY)
       else Asking(x, y, s.toX, s.toY) || Denied(x, y, s.toX, s.toY) || Sending(x, y, s.toX, s.toY)
            || Fetching(x, y, s.toX, s.toY) || Leaving(x, y, s.toX, s.toY)
  }

  predicate Good(s: Call) {
    Leads(s) || Leads(Flip(s))
  }

  lemma LeaderGoesOn(s: Call, c: Choice)
    requires Leads(s) && Enabled(s.x, s.toX, c) && !c.SeekFails? && s.y.role == SLAVE
    ensures Leads(StepX(s, c))
  {
  }

  lemma LeaderKeeps(s: Call, c: Choice)
    requires Leads(s) && Enabled(s.x, s.toX, c) && !c.SeekFails?
    ensures Good(StepX(s, c))
  {
    if s.y.role == SLAVE {
      LeaderGoesOn(s, c);
    } else if c.GiveUp? {
      assert Leads(StepX(s, c));
    } else {
      assert Leads(Flip(StepX(s, c)));
    }
  }

  /** The slave's part of the phases in which it has been asked, and of those that follow. */
  lemma FollowerAnswers(s: Call, c: Choice)
    requires Leads(Flip(s)) && Enabled(s.x, s.toX, c) && !c.SeekFails?
    requires s.x.role == SLAVE && Asking(Base(s.y.at), Base(s.x.at), s.toY, s.toX)
    ensures Good(StepX(s, c))
  {
    if c.GiveUp? || s.toX[0].kind != HUP {
      assert Leads(Flip(StepX(s, c)));
    }
  }

  lemma FollowerTransfers(s: Call, c: Choice)
    requires Leads(Flip(s)) && Enabled(s.x, s.toX, c) && !c.SeekFails?
    requires s.x.role == SLAVE && !Asking(Base(s.y.at), Base(s.x.at), s.toY, s.toX)
    ensures Leads(Flip(StepX(s, c)))
  {
  }

  lemma FollowerTakesOver(s: Call, c: Choice)
    requires Leads(Flip(s)) && Enabled(s.x, s.toX, c) && !c.SeekFails? && s.x.role == MASTER
    ensures Leads(Flip(StepX(s, c)))
  {
  }

  lemma FollowerKeeps(s: Call, c: Choice)
    requires Leads(Flip(s)) && Enabled(s.x, s.toX, c) && !c.SeekFails?
    ensures Good(StepX(s, c))
  {
    if s.x.role == MASTER {
      FollowerTakesOver(s, c);
    } else if Asking(Base(s.y.at), Base(s.x.at), s.toY, s.toX) {
      FollowerAnswers(s, c);
    } else {
      FollowerTransfers(s, c);
    }
  }

  lemma StepKeeps(s: Call, e: Event)
    requires Good(s) && Can(s, e) && !e.choice.SeekFails?
    ensures Good(Step(s, e))
  {
    var t := if e.first then s else Flip(s);
    assert Flip(Flip(s)) == s;
    if Leads(t) { LeaderKeeps(t, e.choice); } else { FollowerKeeps(t, e.choice); }
    assert Flip(Flip(StepX(t, e.choice))) == StepX(t, e.choice);
  }

  lemma {:induction false} RunKeeps(run: seq<Call>, events: seq<Event>, n: nat)
    requires IsRun(run, events) && run[0] == Start && n < |run|
    requires forall i :: 0 <= i < n ==> !events[i].choice.SeekFails?
    ensures Good(run[n])
  {
    if n > 0 {
      RunKeeps(run, events, n - 1);
      StepKeeps(run[n - 1], events[n - 1]);
    }
  }

  // ---------- what that means ----------

  predicate Broken(p: Place) {
    p.WrongRole? || p.BadRead? || p.NotUnderstood?
  }

  /** A refusal to hang up is the next thing that `s` will read, and it asked for it. */
  predicate AboutToYield(s: Side, inbox: seq<Item>) {
    Base(s.at) == AwaitReply(HUP) && inbox != [] && inbox[0].Mesg? && inbox[0].kind == HUP && inbox[0].flag.No?
  }

  predicate Safe(s: Call) {
    // no check on Role fails, no message comes unexpected, no file is taken for a message
    && !Broken(s.x.at) && !Broken(s.y.at)
    // at least one is master, and both are only while a refusal to hang up is under way
    && (s.x.role == MASTER || s.y.role == MASTER)
    && (s.x.role == MASTER && s.y.role == MASTER ==> AboutToYield(s.x, s.toX) || AboutToYield(s.y, s.toY))
    // they never wait for each other, and never talk at the same time
    && !(Waiting(s.x) && Waiting(s.y) && s.toX == [] && s.toY == [])
    && (s.toX == [] || s.toY == []) && |s.toX| <= 2 && |s.toY| <= 2
  }

  /** Every state of every call is safe, as long as no master fails to seek. */
  lemma ConversationIsSafe(run: seq<Call>, events: seq<Event>, n: nat)
    requires IsRun(run, events) && run[0] == Start && n < |run|
    requires forall i :: 0 <= i < n ==> !events[i].choice.SeekFails?
    ensures Safe(run[n])
  {
    RunKeeps(run, events, n);
  }

  // ---------- hanging up ----------

  /** The first (or second) end said yes to hanging up in one of the first n steps. */
  ghost predicate SaidYes(run: seq<Call>, events: seq<Event>, n: nat, first: bool)
    requires IsRun(run, events) && n < |run|
  {
    exists i :: 0 <= i < n && events[i].first == first
      && Mesg(HUP, Yes) in (if first then SideStep(run[i].x, run[i].toX, events[i].choice)
        else SideStep(run[i].y, run[i].toY, events[i].choice)).sent
  }

  predicate YesIsOut(s: Side, inbox: seq<Item>) {
    s.at.Returned? || Mesg(HUP, Yes) in inbox
  }

  lemma YesStep(s: Side, inbox: seq<Item>, c: Choice)
    requires Enabled(s, inbox, c)
    ensures var o := SideStep(s, inbox, c); YesIsOut(o.side, o.inbox) ==> YesIsOut(s, inbox)
  {
  }

  /** An end returns 0 only after the other has said yes. */
  lemma {:induction false} HangUpIsMutual(run: seq<Call>, events: seq<Event>, n: nat)
    requires IsRun(run, events) && run[0] == Start && n < |run|
    ensures YesIsOut(run[n].x, run[n].toX) ==> SaidYes(run, events, n, false)
    ensures YesIsOut(run[n].y, run[n].toY) ==> SaidYes(run, events, n, true)
  {
    if n > 0 {
      HangUpIsMutual(run, events, n - 1);
      var s, e := run[n - 1], events[n - 1];
      if e.first { YesStep(s.x, s.toX, e.choice); } else { YesStep(s.y, s.toY, e.choice); }
    }
  }

  /** Nothing has gone wrong that ends the call early. */
  predicate Clean(s: Call) {
    && !s.x.at.Lost? && !s.y.at.Lost?
    && CleanBox(s.toX) && CleanBox(s.toY)
  }

  predicate CleanBox(q: seq<Item>) {
    forall i :: 0 <= i < |q| ==> q[i] != File(false) && q[i] != Mesg(SNDFILE, No(EM_NOTMP))
  }

  predicate HungUp(s: Call) {
    s.x.at.Returned? && s.y.at.Returned?
  }

  /** The next thing an end does if nobody has work and every job is refused. */
  function WayOut(s: Side): Choice {
    match s.at
    case SendFile => Sent(0)
    case ReceiveFile => Stored
    case _ => if Waiting(s) then Read(false, 0, false) else NoWork
  }

  predicate XMoves(s: Call) {
    !Ended(s.x.at) && (!Waiting(s.x) || s.toX != [])
  }

  /** How many steps of that kind are left, if `x` leads. */
  function StepsLeft(s: Call): nat {
    match s.x.at
    case Returned => if s.y.at.Returned? then 0 else 1
    case AwaitReply(HUP) =>
      if s.y.role == MASTER then (if s.y.at.Top? then 6 else if s.y.at == AwaitReply(HUP) then 4 else 8)
      else if s.y.at.AwaitReply? then 2
      else if s.y.at.Top? then 3 else 4
    case AwaitReply(_) =>
      if s.toX == [] then (if s.y.at.Top? then 7 else 8)
      else if s.y.at.Top? then 6
      else if s.y.at.SendFile? then 10 else 9
    case Top => if s.y.at.Top? then 5 else 6
    case AwaitDone(_) => if s.y.at.Top? then 6 else 7
    case ReceiveFile => if s.y.at.AwaitDone? then 7 else 8
    case _ => 8
  }

  function Left(s: Call): nat {
    if Leads(s) then StepsLeft(s) else StepsLeft(Flip(s))
  }

  function Onward(s: Call): Event {
    if XMoves(s) then Event(true, WayOut(s.x)) else Event(false, WayOut(s.y))
  }

  predicate Nearer(s: Call) {
    Can(s, Onward(s)) && var t := Step(s, Onward(s)); Clean(t) && Good(t) && Left(t) < StepsLeft(s)
  }

  lemma NearerAsking(s: Call)
    requires Leads(s) && Clean(s) && s.y.role == SLAVE && Asking(s.x.at, s.y.at, s.toX, s.toY)
    ensures Nearer(s)
  {
    if s.x.at.Top? {
      assert Onward(s) == Event(true, NoWork) && Leads(Step(s, Event(true, NoWork)));
    } else if s.y.at.Top? {
      NearerAnswered(s);
    } else {
      NearerDone(s);
    }
  }

  lemma NearerAnswered(s: Call)
    requires s.x == Side(MASTER, s.x.at) && s.x.at.AwaitReply? && Ask(s.x.at.kind) && s.y == Side(SLAVE, Top)
    requires s.toX == [] && s.toY == [Mesg(s.x.at.kind, Plain)]
    ensures Nearer(s)
  {
    assert Onward(s) == Event(false, Read(false, 0, false)) && Leads(Step(s, Event(false, Read(false, 0, false))));
  }

  lemma NearerDone(s: Call)
    requires Leads(s) && Clean(s) && s.x.at.AwaitReply? && s.y.role == SLAVE && s.y.at.AwaitDone?
    requires Asking(s.x.at, s.y.at, s.toX, s.toY)
    ensures Nearer(s)
  {
    var e := Event(false, Read(false, 0, false));
    assert Onward(s) == e && Step(s, e) == s.(y := Side(SLAVE, Top), toY := s.toY[1..]) && Leads(Step(s, e));
  }

  lemma NearerDenied(s: Call)
    requires Leads(s) && Clean(s) && s.y.role == SLAVE && Denied(s.x.at, s.y.at, s.toX, s.toY)
    ensures Nearer(s)
  {
  }

  lemma NearerSending(s: Call)
    requires Leads(s) && Clean(s) && s.y.role == SLAVE && Sending(s.x.at, s.y.at, s.toX, s.toY) && XMoves(s)
    ensures Nearer(s)
  {
    assert Leads(StepX(s, WayOut(s.x)));
  }

  lemma NearerStoring(s: Call)
    requires Leads(s) && Clean(s) && s.y.role == SLAVE && Sending(s.x.at, s.y.at, s.toX, s.toY) && !XMoves(s)
    ensures Nearer(s)
  {
    assert Onward(s) == Event(false, Stored) && Leads(Step(s, Event(false, Stored)));
  }

  lemma NearerFetching(s: Call)
    requires Leads(s) && Clean(s) && s.y.role == SLAVE && Fetching(s.x.at, s.y.at, s.toX, s.toY)
    ensures Nearer(s)
  {
    var t := Step(s, Onward(s));
    assert Leads(t);
  }

  lemma NearerLeaving(s: Call)
    requires Leads(s) && Clean(s) && s.y.role == SLAVE && Leaving(s.x.at, s.y.at, s.toX, s.toY) && !HungUp(s)
    ensures Nearer(s)
  {
    var first := s.x.at == AwaitReply(HUP);
    var e := Event(first, Read(false, 0, false));
    assert Onward(s) == e && Leads(Step(s, e));
  }

  lemma NearerSwapping(s: Call)
    requires Leads(s) && Clean(s) && s.y.role == MASTER
    ensures Nearer(s)
  {
  }

  lemma NearerLeader(s: Call)
    requires Leads(s) && Clean(s) && !HungUp(s)
    ensures Nearer(s)
  {
    if s.y.role == MASTER {
      NearerSwapping(s);
    } else if Asking(s.x.at, s.y.at, s.toX, s.toY) {
      NearerAsking(s);
    } else if Fetching(s.x.at, s.y.at, s.toX, s.toY) {
      NearerFetching(s);
    } else if Leaving(s.x.at, s.y.at, s.toX, s.toY) {
      NearerLeaving(s);
    } else if Denied(s.x.at, s.y.at, s.toX, s.toY) {
      NearerDenied(s);
    } else if XMoves(s) {
      NearerSending(s);
    } else {
      NearerStoring(s);
    }
  }

  /** A run from `s` in which nobody fails. */
  ghost predicate Goes(s: Call, t: Call, run: seq<Call>, events: seq<Event>) {
    && IsRun(run, events) && run[0] == s && run[|run| - 1] == t
    && forall i :: 0 <= i < |events| ==> !events[i].choice.GiveUp? && !events[i].choice.SeekFails?
  }

  ghost predicate Reaches(s: Call, t: Call) {
    exists run, events :: Goes(s, t, run, events)
  }

  lemma ReachesSelf(s: Call)
    ensures Reaches(s, s)
  {
    assert Goes(s, s, [s], []);
  }

  lemma ReachesFirst(s: Call, e: Event, t: Call)
    requires Can(s, e) && !e.choice.GiveUp? && !e.choice.SeekFails? && Reaches(Step(s, e), t)
    ensures Reaches(s, t)
  {
    var run, events :| Goes(Step(s, e), t, run, events);
    assert Goes(s, t, [s] + run, [e] + events);
  }

  /** Whatever has happened, two ends that nothing has stopped can still finish, both
      returning 0. */
  lemma {:induction false} CanHangUp(s: Call) returns (t: Call)
    requires Good(s) && Clean(s)
    ensures Reaches(s, t) && HungUp(t)
    decreases Left(s)
  {
    if HungUp(s) {
      ReachesSelf(s);
      t := s;
    } else if Leads(s) {
      NearerLeader(s);
      t := CanHangUp(Step(s, Onward(s)));
      ReachesFirst(s, Onward(s), t);
    } else {
      var f := Flip(s);
      NearerLeader(f);
      var e := Onward(f).(first := !Onward(f).first);
      assert Step(s, e) == Flip(Step(f, Onward(f)));
      assert Flip(Flip(Step(f, Onward(f)))) == Step(f, Onward(f));
      t := CanHangUp(Step(s, e));
      ReachesFirst(s, e, t);
    }
  }

  // ---------- a master that fails to seek ----------

  lemma {:induction false} GoodGoes(s: Call, t: Call, run: seq<Call>, events: seq<Event>, n: nat)
    requires Good(s) && Goes(s, t, run, events) && n < |run|
    ensures Good(run[n])
  {
    if n > 0 {
      GoodGoes(s, t, run, events, n - 1);
      StepKeeps(run[n - 1], events[n - 1]);
    }
  }

  /** Nobody is left to read what `x` writes, and `x` has nothing to read. */
  predicate Alone(s: Call) {
    s.y.at.Lost? && s.toX == [] && s.x.role == MASTER && (s.x.at.Top? || s.x.at.AwaitReply? || s.x.at.Lost?)
  }

  lemma {:induction false} AloneGoes(s: Call, t: Call, run: seq<Call>, events: seq<Event>, n: nat)
    requires Alone(s) && Goes(s, t, run, events) && n < |run|
    ensures Alone(run[n])
  {
    if n > 0 {
      AloneGoes(s, t, run, events, n - 1);
    }
  }

  /** The message written in place of a request reaches the slave, whose check on Role fails. */
  lemma SeekFailureBreaks(s: Call) returns (t: Call)
    requires Good(s) && Enabled(s.x, s.toX, SeekFails) && !s.y.at.Lost?
    ensures Reaches(StepX(s, SeekFails), t) && t.y.at.WrongRole?
  {
    var read := Event(false, Read(false, 0, false));
    var s1 := StepX(s, SeekFails);
    assert !Ended(s.y.at) && 1 <= |s1.toY| <= 2 && s1.toY[|s1.toY| - 1] == Mesg(SNDFILE, No(EM_SEEK));
    var s2 := Step(s1, read);
    if |s1.toY| == 1 {
      t := s2;
    } else {
      assert s2.y.at.Top? && s2.y.role == SLAVE && s2.toY == [Mesg(SNDFILE, No(EM_SEEK))];
      t := Step(s2, read);
      ReachesSelf(t);
      ReachesFirst(s2, read, t);
    }
    ReachesSelf(t);
    ReachesFirst(s1, read, t);
  }

  lemma NoneBreaks(s: Call, t: Call)
    requires (Good(s) || Alone(s)) && Reaches(s, t)
    ensures !t.x.at.WrongRole? && !t.y.at.WrongRole?
  {
    var run, events :| Goes(s, t, run, events);
    if Alone(s) {
      AloneGoes(s, t, run, events, |run| - 1);
    } else {
      GoodGoes(s, t, run, events, |run| - 1);
    }
  }

  /** Exactly the master's failure to seek, while the other end is there to read, opens the
      way to a failing check on Role. */
  lemma RoleCheckExactly(s: Call, c: Choice)
    requires Good(s) && Enabled(s.x, s.toX, c)
    ensures (exists t :: Reaches(StepX(s, c), t) && (t.x.at.WrongRole? || t.y.at.WrongRole?)) <==>
      c.SeekFails? && !s.y.at.Lost?
  {
    if c.SeekFails? && !s.y.at.Lost? {
      var t := SeekFailureBreaks(s);
    } else {
      var s1 := StepX(s, c);
      assert Good(s1) || Alone(s1) by {
        if !c.SeekFails? { StepKeeps(s, Event(true, c)); }
      }
      forall t | Reaches(s1, t) ensures !t.x.at.WrongRole? && !t.y.at.WrongRole? {
        NoneBreaks(s1, t);
      }
    }
  }

  // ---------- the program ----------

  /** One end of a call, with the global Role that `cntrl` updates. */
  class Uucico {
    var Role: Role
    var at: Place
    var inbox: seq<Item>
    var sent: seq<Item>

    constructor (role: Role)
      ensures Role == role && at == Top && inbox == [] && sent == []
    {
      Role, at, inbox, sent := role, Top, [], [];
    }

    ghost function View(): Outcome
      reads this
    {
      Outcome(Side(Role, at), inbox, sent)
    }

    /** `wmesg` */
    method Wmesg(kind: Kind, flag: Flag)
      modifies this`sent
      ensures sent == old(sent) + [Mesg(kind, flag)]
    {
      sent := sent + [Mesg(kind, flag)];
    }

    /** The top of the loop, for a master. */
    method NextJob(c: Choice)
      requires at == Top && Role == MASTER && sent == []
      requires c.NoWork? || c.Skip? || c.WantSend? || c.WantReceive? || c.SeekFails?
      modifies this
      ensures View() == old(SideStep(Side(Role, at), inbox, c))
    {
      if c.NoWork? {
        Wmesg(HUP, Plain);
        at := AwaitReply(HUP);
      } else if c.SeekFails? {
        Wmesg(SNDFILE, No(EM_SEEK));
      } else if !c.Skip? {
        var wrktype := if c.WantSend? then SNDFILE else RCVFILE;
        Wmesg(wrktype, Plain);
        at := AwaitReply(wrktype);
      }
    }

    /** `rmesg` and the label `process`. */
    method ReadAndProcess(c: Choice)
      requires Waiting(Side(Role, at)) && !at.ReceiveFile? && inbox != [] && c.Read? && sent == []
      modifies this
      ensures View() == old(SideStep(Side(Role, at), inbox, c))
    {
      var msg := inbox[0];
      inbox := inbox[1..];
      var wanted := match at {
        case AwaitReply(k) => msg.Mesg? && msg.kind == k
        case AwaitDone(_) => msg.Mesg? && msg.kind == RQSTCMPT
        case _ => msg.Mesg?
      };
      if !wanted {
        at := if at.AwaitDone? && at.tries > 0 then AwaitDone(at.tries - 1) else BadRead;
        return;
      }
      match msg.kind
      case RQSTCMPT => at := Top;
      case HUP => ProcessHup(msg.flag, c);
      case XUUCP =>
        Wmesg(XUUCP, No(0));
        at := Top;
      case SNDFILE =>
        if Role == MASTER && msg.flag == No(EM_NOTMP) {
          inbox, at := [msg] + inbox, Lost(at);
        } else {
          ProcessJob(SNDFILE, msg.flag, c);
        }
      case RCVFILE => ProcessJob(RCVFILE, msg.flag, c);
      case Other => at := NotUnderstood;
    }

    method ProcessHup(flag: Flag, c: Choice)
      requires c.Read? && sent == []
      modifies this
      ensures View() == old(Process(Role, Mesg(HUP, flag), c, at, inbox, inbox))
    {
      if flag.Yes? {
        Wmesg(HUP, Yes);
        at := Returned;
      } else if flag.No? {
        if Role == MASTER {
          Role := SLAVE;
          at := Top;
        } else {
          at := WrongRole;
        }
      } else if !c.moreWork {
        Wmesg(HUP, Yes);
        at := AwaitReply(HUP);
      } else {
        Wmesg(HUP, No(0));
        Role := MASTER;
        at := Top;
      }
    }

    method ProcessJob(kind: Kind, flag: Flag, c: Choice)
      requires c.Read? && sent == [] && Job(kind) && !(Role == MASTER && kind == SNDFILE && flag == No(EM_NOTMP))
      modifies this
      ensures View() == old(Process(Role, Mesg(kind, flag), c, at, inbox, inbox))
    {
      if (Role == MASTER) == flag.Plain? {
        at := WrongRole;
      } else if flag.No? {
        at := Top;
      } else if flag.Yes? {
        at := if kind == SNDFILE then SendFile else ReceiveFile;
      } else if c.accept {
        Wmesg(kind, Yes);
        at := if kind == SNDFILE then ReceiveFile else SendFile;
      } else {
        Wmesg(kind, No(c.code));
        at := Top;
      }
    }

    /** `Wrdata` and `Rddata` */
    method Transfer(c: Choice)
      requires sent == [] && Enabled(Side(Role, at), inbox, c)
      requires c.Sent? || c.PartlySent? || c.Stored? || c.NotCopied? || c.TooBig?
      modifies this
      ensures View() == old(SideStep(Side(Role, at), inbox, c))
      ensures old(at.ReceiveFile? && inbox[0] == File(true)) ==>
        at == Top && sent == [Mesg(RQSTCMPT, if c.TooBig? then No(10) else if c.NotCopied? then No(5) else Yes)]
    {
      if c.Sent? || c.PartlySent? {
        sent := [File(c.Sent?)];
        at := if c.Sent? then AwaitDone(c.size / 1024) else Lost(AwaitDone(0));
      } else if inbox[0].File? && !inbox[0].whole {
        at := Lost(at);
      } else {
        var item := inbox[0];
        inbox := inbox[1..];
        if item.Mesg? {
          at := BadRead;
        } else {
          Wmesg(RQSTCMPT, if c.TooBig? then No(EM_ULIMIT) else if c.NotCopied? then No(EM_RMTCP) else Yes);
          at := Top;
        }
      }
    }
  }
}
