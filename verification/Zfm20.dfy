/** Fingerprint enrolment, examples/c++/zfm20-register.cxx, over the reader driver of
    src/zfm20/zfm20.cxx. */
module Zfm20 {
  import opened Wrappers

  const ERR_OK: Byte := 0x00
  const ERR_NO_FINGER: Byte := 0x02

  datatype Command =
    | VerifyPassword
    | GenerateImage
    | Image2Tz(slot: nat)
    | CreateModel
    | StoreModel(slot: nat, id: nat)

  /** What a command meets: an acknowledged packet with its confirmation code, or an exception
      (no answer in time, a bad header, a packet that is no acknowledgement). */
  datatype Reply = Code(code: Byte) | Fault

  /** How far the program got: still waiting for an answer, ended by an exception, or returned. */
  datatype Exit = Running | Threw | Returned(code: int)

  // ---------- The protocol as a state machine ----------

  /** What the program waits for. The two captures and the lifted finger are spun on. */
  datatype Phase =
    | Password | FirstImage | FirstTz | Lift | SecondImage | SecondTz | Model | Store
    | Ended(exit: Exit)

  /** The command whose answer the program waits for. */
  function Awaited(p: Phase): Option<Command> {
    match p
    case Password => Some(VerifyPassword)
    case FirstImage | Lift | SecondImage => Some(GenerateImage)
    case FirstTz => Some(Image2Tz(1))
    case SecondTz => Some(Image2Tz(2))
    case Model => Some(CreateModel)
    case Store => Some(StoreModel(1, 1))
    case Ended(_) => None
  }

  function Next(p: Phase, r: Reply): Phase {
    if p.Ended? then p
    else if r.Fault? then Ended(Threw)
    else
      match p
      case Password => FirstImage
      case FirstImage => if r.code == ERR_OK then FirstTz else FirstImage
      case FirstTz => if r.code == ERR_OK then Lift else Ended(Returned(1))
      case Lift => if r.code == ERR_NO_FINGER then SecondImage else Lift
      case SecondImage => if r.code == ERR_OK then SecondTz else SecondImage
      case SecondTz => if r.code == ERR_OK then Model else Ended(Returned(1))
      case Model => if r.code == ERR_OK then Store else Ended(Returned(1))
      case Store => Ended(Returned(if r.code == ERR_OK then 0 else 1))
  }

  function PhaseAfter(replies: seq<Reply>): Phase {
    if replies == [] then Password else Next(PhaseAfter(replies[..|replies| - 1]), replies[|replies| - 1])
  }

  function ExitOf(p: Phase): Exit {
    if p.Ended? then p.exit else Running
  }

  function Pending(p: Phase): seq<Command> {
    if Awaited(p).Some? then [Awaited(p).value] else []
  }

  /** The commands sent while the given replies come in, the one still unanswered included. */
  function Sent(replies: seq<Reply>): seq<Command> {
    (if replies == [] then [] else Sent(replies[..|replies| - 1])) + Pending(PhaseAfter(replies))
  }

  // ---------- The program ----------

  /** A reader that answers from a script; when the script has run out the program is left
      waiting, so every prefix of every run is covered, however long it spins. */
  class Reader {
    const script: seq<Reply>
    var used: nat
    var sent: seq<Command>

    constructor (script: seq<Reply>)
      ensures this.script == script && At(Password) && used == 0
    {
      this.script := script;
      used, sent := 0, [];
    }

    /** The program is about to send the command of phase `p`, or has ended. */
    ghost predicate At(p: Phase)
      reads this
    {
      && used <= |script|
      && PhaseAfter(script[..used]) == p
      && sent + Pending(p) == Sent(script[..used])
    }

    /** The program has sent the command of phase `p`, and no answer will come. */
    ghost predicate Stuck(p: Phase)
      reads this
    {
      used == |script| && PhaseAfter(script) == p && sent == Sent(script)
    }

    /** Send a command and wait for the answer; `None` when the script has none. */
    method Exchange(c: Command, ghost p: Phase) returns (r: Option<Reply>)
      requires At(p) && Awaited(p) == Some(c)
      modifies this
      ensures r.Some? ==> At(Next(p, r.value)) && used == old(used) + 1
      ensures r.None? ==> Stuck(p)
    {
      sent := sent + [c];
      if used == |script| {
        assert script[..used] == script;
        return None;
      }
      r := Some(script[used]);
      used := used + 1;
      assert script[..used][..used - 1] == script[..used - 1];
    }

    /** `while (fp.generateImage() != wanted);` */
    method SpinUntil(wanted: Byte, ghost p: Phase) returns (r: Option<Reply>)
      requires At(p) && Awaited(p) == Some(GenerateImage)
      requires forall code: Byte :: code != wanted ==> Next(p, Code(code)) == p
      modifies this
      ensures r == Some(Fault) || r == Some(Code(wanted)) || r == None
      ensures r.Some? ==> At(Next(p, r.value))
      ensures r.None? ==> Stuck(p)
    {
      r := Exchange(GenerateImage, p);
      while r.Some? && r.value.Code? && r.value.code != wanted
        invariant r.Some? ==> At(Next(p, r.value))
        invariant r.None? ==> Stuck(p)
        decreases |script| - used, r.Some?
      {
        r := Exchange(GenerateImage, p);
      }
    }
  }

  lemma {:induction false} EndedStays(replies: seq<Reply>, n: nat)
    requires n <= |replies| && PhaseAfter(replies[..n]).Ended?
    ensures PhaseAfter(replies) == PhaseAfter(replies[..n]) && Sent(replies) == Sent(replies[..n])
    decreases |replies|
  {
    if n < |replies| {
      assert replies[..|replies| - 1][..n] == replies[..n];
      EndedStays(replies[..|replies| - 1], n);
    } else {
      assert replies[..n] == replies;
    }
  }

  /** The program of the example, after `setupTty`: what it sends, and how it ends, is what the
      state machine says for the replies of the script. `verifyPassword` returns true for every
      acknowledged packet, so the branch for a refused password is never taken. */
  method Enrol(fp: Reader) returns (exit: Exit)
    requires fp.At(Password)
    modifies fp
    ensures exit == ExitOf(PhaseAfter(fp.script))
    ensures fp.sent == Sent(fp.script)
  {
    exit := EnrolScript(fp);
    if exit != Running {
      EndedStays(fp.script, fp.used);
    }
  }

  method EnrolScript(fp: Reader) returns (exit: Exit)
    requires fp.At(Password)
    modifies fp
    ensures Finished(fp, exit)
  {
    var early := CaptureFirst(fp);
    if early.Some? { return early.value; }
    early := CaptureSecond(fp);
    if early.Some? { return early.value; }

    var r := fp.Exchange(CreateModel, Model);
    if r.None? { return Running; }
    if r.value.Fault? { return Threw; }
    if r.value.code != ERR_OK { return Returned(1); }

    r := fp.Exchange(StoreModel(1, 1), Store);
    if r.None? { return Running; }
    if r.value.Fault? { return Threw; }
    if r.value.code != ERR_OK { return Returned(1); }
    return Returned(0);
  }

  /** The program stopped with `exit`, or hangs where the script ends. */
  ghost predicate Finished(fp: Reader, exit: Exit)
    reads fp
  {
    if exit == Running then ExitOf(PhaseAfter(fp.script)) == Running && fp.sent == Sent(fp.script)
    else fp.At(Ended(exit))
  }

  /** Password, first image, slot 1. `None` means that the program goes on. */
  method CaptureFirst(fp: Reader) returns (early: Option<Exit>)
    requires fp.At(Password)
    modifies fp
    ensures early.Some? ==> Finished(fp, early.value)
    ensures early.None? ==> fp.At(Lift)
  {
    var r := fp.Exchange(VerifyPassword, Password);
    if r.None? { return Some(Running); }
    if r.value.Fault? { return Some(Threw); }

    r := fp.SpinUntil(ERR_OK, FirstImage);
    if r.None? { return Some(Running); }
    if r.value.Fault? { return Some(Threw); }

    r := fp.Exchange(Image2Tz(1), FirstTz);
    if r.None? { return Some(Running); }
    if r.value.Fault? { return Some(Threw); }
    if r.value.code != ERR_OK { return Some(Returned(1)); }
    return None;
  }

  /** The finger lifted, the second image, slot 2. */
  method CaptureSecond(fp: Reader) returns (early: Option<Exit>)
    requires fp.At(Lift)
    modifies fp
    ensures early.Some? ==> Finished(fp, early.value)
    ensures early.None? ==> fp.At(Model)
  {
    var r := fp.SpinUntil(ERR_NO_FINGER, Lift);
    if r.None? { return Some(Running); }
    if r.value.Fault? { return Some(Threw); }

    r := fp.SpinUntil(ERR_OK, SecondImage);
    if r.None? { return Some(Running); }
    if r.value.Fault? { return Some(Threw); }

    r := fp.Exchange(Image2Tz(2), SecondTz);
    if r.None? { return Some(Running); }
    if r.value.Fault? { return Some(Threw); }
    if r.value.code != ERR_OK { return Some(Returned(1)); }
    return None;
  }

  // ---------- Safety ----------

  /** All replies in `lo..hi` are packets with a code other than `code`. */
  predicate Spins(replies: seq<Reply>, lo: nat, hi: nat, code: Byte) {
    forall j :: lo <= j < hi && j < |replies| ==> replies[j].Code? && replies[j].code != code
  }

  predicate Is(replies: seq<Reply>, i: nat, code: Byte) {
    i < |replies| && replies[i] == Code(code)
  }

  /** The replies up to a first capture, at `a`. */
  predicate FirstCapture(replies: seq<Reply>, a: nat) {
    1 <= a < |replies| && replies[0].Code? && Spins(replies, 1, a, ERR_OK) && Is(replies, a, ERR_OK)
  }

  /** The finger seen lifted at `b`, after the first conversion at `a + 1`. */
  predicate Lifted(replies: seq<Reply>, a: nat, b: nat) {
    && FirstCapture(replies, a) && Is(replies, a + 1, ERR_OK)
    && a + 2 <= b && Spins(replies, a + 2, b, ERR_NO_FINGER) && Is(replies, b, ERR_NO_FINGER)
  }

  predicate SecondCapture(replies: seq<Reply>, a: nat, b: nat, c: nat) {
    Lifted(replies, a, b) && b < c && Spins(replies, b + 1, c, ERR_OK) && Is(replies, c, ERR_OK)
  }

  ghost predicate HasFirst(replies: seq<Reply>) {
    exists a: nat :: FirstConverted(replies, a) && Spins(replies, a + 2, |replies|, ERR_NO_FINGER)
  }

  predicate FirstConverted(replies: seq<Reply>, a: nat) {
    FirstCapture(replies, a) && Is(replies, a + 1, ERR_OK)
  }

  ghost predicate HasLifted(replies: seq<Reply>) {
    exists a: nat, b: nat :: Lifted(replies, a, b) && Spins(replies, b + 1, |replies|, ERR_OK)
  }

  /** The second capture is reply `c`. */
  ghost predicate HasSecond(replies: seq<Reply>, c: nat) {
    exists a: nat, b: nat :: SecondCapture(replies, a, b, c)
  }

  /** The replies a finished enrolment needs before the model may be stored: the password was
      answered; a capture and its conversion into slot 1 succeeded; the finger was seen lifted;
      a later capture and its conversion into slot 2 succeeded; the model was created. */
  ghost predicate ReadyToStore(replies: seq<Reply>) {
    var n := |replies|;
    n >= 3 && HasSecond(replies, n - 3) && Is(replies, n - 2, ERR_OK) && Is(replies, n - 1, ERR_OK)
  }

  /** What must have happened for the program to be in phase `p`. */
  ghost predicate History(p: Phase, replies: seq<Reply>) {
    var n := |replies|;
    match p
    case Password => replies == []
    case FirstImage => n >= 1 && replies[0].Code? && Spins(replies, 1, n, ERR_OK)
    case FirstTz => n >= 1 && FirstCapture(replies, n - 1)
    case Lift => HasFirst(replies)
    case SecondImage => HasLifted(replies)
    case SecondTz => n >= 1 && HasSecond(replies, n - 1)
    case Model => n >= 2 && HasSecond(replies, n - 2) && Is(replies, n - 1, ERR_OK)
    case Store => ReadyToStore(replies)
    case Ended(_) => true
  }

  /** Positions in a prefix are positions in the whole. */
  lemma PrefixFacts(replies: seq<Reply>, a: nat, b: nat, c: nat)
    requires replies != []
    ensures var init := replies[..|replies| - 1];
            && (FirstCapture(init, a) <==> FirstCapture(replies, a) && a < |init|)
            && (FirstConverted(init, a) <==> FirstConverted(replies, a) && a + 1 < |init|)
            && (Lifted(init, a, b) <==> Lifted(replies, a, b) && b < |init|)
            && (SecondCapture(init, a, b, c) <==> SecondCapture(replies, a, b, c) && c < |init|)
  {
    var init := replies[..|replies| - 1];
    assert forall j :: 0 <= j < |init| ==> init[j] == replies[j];
  }

  lemma SecondInPrefix(replies: seq<Reply>, c: nat)
    requires replies != []
    ensures HasSecond(replies[..|replies| - 1], c) <==> HasSecond(replies, c) && c < |replies| - 1
  {
    hide SecondCapture;
    var init := replies[..|replies| - 1];
    forall a: nat, b: nat
      ensures SecondCapture(init, a, b, c) <==> SecondCapture(replies, a, b, c) && c < |init|
    {
      PrefixFacts(replies, a, b, c);
    }
  }

  /** A spin goes on by one reply. */
  lemma SpinsSnoc(replies: seq<Reply>, lo: nat, code: Byte)
    requires replies != [] && lo <= |replies| - 1
    ensures Spins(replies, lo, |replies|, code) <==>
              && Spins(replies[..|replies| - 1], lo, |replies| - 1, code)
              && replies[|replies| - 1].Code? && replies[|replies| - 1].code != code
    ensures Spins(replies, lo, |replies| - 1, code) <==> Spins(replies[..|replies| - 1], lo, |replies| - 1, code)
  {
    var init := replies[..|replies| - 1];
    assert forall j :: 0 <= j < |init| ==> init[j] == replies[j];
  }

  /** The last reply of a first phase, of a spin for the lifted finger, and of the second spin. */
  lemma FirstImageStep(replies: seq<Reply>)
    requires |replies| >= 2 && History(FirstImage, replies[..|replies| - 1])
    ensures History(Next(FirstImage, replies[|replies| - 1]), replies)
  {
    SpinsSnoc(replies, 1, ERR_OK);
  }

  lemma LiftStep(replies: seq<Reply>)
    requires replies != [] && History(Lift, replies[..|replies| - 1])
    ensures History(Next(Lift, replies[|replies| - 1]), replies)
  {
    var n, last := |replies| - 1, replies[|replies| - 1];
    var init := replies[..n];
    var a: nat :| FirstConverted(init, a) && Spins(init, a + 2, |init|, ERR_NO_FINGER);
    PrefixFacts(replies, a, 0, 0);
    assert a + 2 <= n;
    SpinsSnoc(replies, a + 2, ERR_NO_FINGER);
    if last == Code(ERR_NO_FINGER) {
      assert Lifted(replies, a, n) && Spins(replies, n + 1, |replies|, ERR_OK);
    } else if last.Code? {
      assert FirstConverted(replies, a);
    }
  }

  lemma SecondImageStep(replies: seq<Reply>)
    requires replies != [] && History(SecondImage, replies[..|replies| - 1])
    ensures History(Next(SecondImage, replies[|replies| - 1]), replies)
  {
    var n, last := |replies| - 1, replies[|replies| - 1];
    var init := replies[..n];
    var a: nat, b: nat :| Lifted(init, a, b) && Spins(init, b + 1, |init|, ERR_OK);
    PrefixFacts(replies, a, b, 0);
    SpinsSnoc(replies, b + 1, ERR_OK);
    if last == Code(ERR_OK) {
      assert SecondCapture(replies, a, b, n);
    } else if last.Code? {
      assert Lifted(replies, a, b);
    }
  }

  lemma FirstTzStep(replies: seq<Reply>)
    requires replies != [] && History(FirstTz, replies[..|replies| - 1])
    ensures History(Next(FirstTz, replies[|replies| - 1]), replies)
  {
    var n := |replies| - 1;
    PrefixFacts(replies, n - 1, 0, 0);
    if replies[n] == Code(ERR_OK) {
      assert FirstConverted(replies, n - 1) && Spins(replies, n + 1, |replies|, ERR_NO_FINGER);
    }
  }

  lemma HistoryStep(replies: seq<Reply>, p: Phase)
    requires replies != [] && History(p, replies[..|replies| - 1])
    ensures History(Next(p, replies[|replies| - 1]), replies)
  {
    hide HasFirst, HasLifted, HasSecond, Spins, FirstCapture;
    var n := |replies| - 1;
    match p
    case Password => NoSpin(replies);
    case FirstImage => FirstImageStep(replies);
    case FirstTz => FirstTzStep(replies);
    case Lift => LiftStep(replies);
    case SecondImage => SecondImageStep(replies);
    case SecondTz => SecondInPrefix(replies, n - 1);
    case Model => SecondInPrefix(replies, n - 2);
    case Store =>
    case Ended(_) =>
  }

  lemma NoSpin(replies: seq<Reply>)
    ensures Spins(replies, |replies|, |replies|, ERR_OK)
  {
  }

  lemma {:induction false} HistoryHolds(replies: seq<Reply>)
    ensures History(PhaseAfter(replies), replies)
    decreases |replies|
  {
    if replies != [] {
      HistoryHolds(replies[..|replies| - 1]);
      HistoryStep(replies, PhaseAfter(replies[..|replies| - 1]));
    }
  }

  /** The phase before the last reply, given what the history of phase `p` says. */
  lemma Predecessor(replies: seq<Reply>, p: Phase) returns (q: Phase)
    requires replies != [] && !p.Ended? && History(p, replies)
    ensures !q.Ended? && History(q, replies[..|replies| - 1]) && Next(q, replies[|replies| - 1]) == p
  {
    var n := |replies| - 1;
    match p
    case FirstImage =>
      q := if n == 0 then Password else FirstImage;
      if n > 0 {
        SpinsSnoc(replies, 1, ERR_OK);
      }
    case FirstTz =>
      q := FirstImage;
      SpinsSnoc(replies, 1, ERR_OK);
    case Lift =>
      q := BeforeLift(replies);
    case SecondImage =>
      q := BeforeSecondImage(replies);
    case SecondTz =>
      q := SecondImage;
      BeforeSecondTz(replies);
    case Model =>
      q := SecondTz;
      SecondInPrefix(replies, n - 1);
    case Store =>
      q := Model;
      SecondInPrefix(replies, n - 2);
  }

  lemma BeforeLift(replies: seq<Reply>) returns (q: Phase)
    requires replies != [] && HasFirst(replies)
    ensures !q.Ended? && History(q, replies[..|replies| - 1]) && Next(q, replies[|replies| - 1]) == Lift
  {
    var n := |replies| - 1;
    var a: nat :| FirstConverted(replies, a) && Spins(replies, a + 2, |replies|, ERR_NO_FINGER);
    PrefixFacts(replies, a, 0, 0);
    if n == a + 1 {
      q := FirstTz;
    } else {
      q := Lift;
      SpinsSnoc(replies, a + 2, ERR_NO_FINGER);
    }
  }

  lemma BeforeSecondImage(replies: seq<Reply>) returns (q: Phase)
    requires replies != [] && HasLifted(replies)
    ensures !q.Ended? && History(q, replies[..|replies| - 1]) && Next(q, replies[|replies| - 1]) == SecondImage
  {
    var n := |replies| - 1;
    var a: nat, b: nat :| Lifted(replies, a, b) && Spins(replies, b + 1, |replies|, ERR_OK);
    PrefixFacts(replies, a, b, 0);
    if n == b {
      q := Lift;
      SpinsSnoc(replies, a + 2, ERR_NO_FINGER);
      assert FirstConverted(replies[..n], a);
    } else {
      q := SecondImage;
      SpinsSnoc(replies, b + 1, ERR_OK);
    }
  }

  lemma BeforeSecondTz(replies: seq<Reply>)
    requires replies != [] && HasSecond(replies, |replies| - 1)
    ensures HasLifted(replies[..|replies| - 1]) && replies[|replies| - 1] == Code(ERR_OK)
  {
    var n := |replies| - 1;
    var a: nat, b: nat :| SecondCapture(replies, a, b, n);
    PrefixFacts(replies, a, b, 0);
    SpinsSnoc(replies, b + 1, ERR_OK);
  }

  lemma {:induction false} HistoryDecides(replies: seq<Reply>, p: Phase)
    requires !p.Ended? && History(p, replies)
    ensures PhaseAfter(replies) == p
    decreases |replies|
  {
    hide HasFirst, HasLifted, HasSecond, Spins;
    if replies != [] {
      var q := Predecessor(replies, p);
      HistoryDecides(replies[..|replies| - 1], q);
    } else {
      EmptyHistory(p);
    }
  }

  lemma EmptyHistory(p: Phase)
    requires !p.Ended? && History(p, [])
    ensures p == Password
  {
  }

  /** Enrolment safety, for arbitrary replies and arbitrarily long spins: the program asks the
      reader to store the model exactly when the whole enrolment has been answered as it should. */
  lemma StoresOnlyWhenReady(replies: seq<Reply>)
    ensures PhaseAfter(replies) == Store <==> ReadyToStore(replies)
  {
    HistoryHolds(replies);
    if ReadyToStore(replies) {
      HistoryDecides(replies, Store);
    }
  }

  /** The command sent after the first `i` replies, in a run that has not ended before. */
  lemma {:induction false} SentAt(replies: seq<Reply>, i: nat, p: Phase)
    requires i <= |replies| && PhaseAfter(replies[..i]) == p && !p.Ended?
    requires forall j :: 0 <= j <= |replies| ==> !PhaseAfter(replies[..j]).Ended?
    ensures |Sent(replies)| == |replies| + 1 && Sent(replies)[i] == Awaited(p).value
    decreases |replies|
  {
    hide Next, PhaseAfter, Awaited;
    assert replies[..|replies|] == replies;
    AwaitsSomething(PhaseAfter(replies));
    if replies != [] {
      var init := replies[..|replies| - 1];
      assert forall j :: 0 <= j <= |init| ==> init[..j] == replies[..j];
      SentAt(init, if i < |replies| then i else 0, PhaseAfter(init[..if i < |replies| then i else 0]));
    }
  }

  lemma AwaitsSomething(p: Phase)
    requires !p.Ended?
    ensures Pending(p) == [Awaited(p).value]
  {
  }

  /** A run that has not ended has not ended at any time before. */
  lemma NeverEnded(replies: seq<Reply>)
    requires !PhaseAfter(replies).Ended?
    ensures forall j :: 0 <= j <= |replies| ==> !PhaseAfter(replies[..j]).Ended?
  {
    hide PhaseAfter;
    forall j | 0 <= j <= |replies|
      ensures !PhaseAfter(replies[..j]).Ended?
    {
      if PhaseAfter(replies[..j]).Ended? {
        EndedStays(replies, j);
      }
    }
  }

  /** The phases of a run up to the second capture, by the places of its landmarks. */
  lemma PhasesOfCapture(replies: seq<Reply>, a: nat, b: nat, c: nat, i: nat)
    requires SecondCapture(replies, a, b, c) && 1 <= i <= c
    ensures PhaseAfter(replies[..i]) == if i <= a then FirstImage else if i == a + 1 then FirstTz
                                        else if i <= b then Lift else SecondImage
  {
    hide PhaseAfter;
    var part := replies[..i];
    assert forall j :: 0 <= j < i ==> part[j] == replies[j];
    if i <= a {
      HistoryDecides(part, FirstImage);
    } else if i == a + 1 {
      assert FirstCapture(part, a);
      HistoryDecides(part, FirstTz);
    } else if i <= b {
      assert FirstConverted(part, a) && Spins(part, a + 2, |part|, ERR_NO_FINGER);
      HistoryDecides(part, Lift);
    } else {
      assert Lifted(part, a, b) && Spins(part, b + 1, |part|, ERR_OK);
      HistoryDecides(part, SecondImage);
    }
  }

  /** The phases after the second capture. */
  lemma PhasesAfterCapture(replies: seq<Reply>)
    requires ReadyToStore(replies)
    ensures var n := |replies|;
            PhaseAfter(replies[..n - 2]) == SecondTz && PhaseAfter(replies[..n - 1]) == Model && PhaseAfter(replies) == Store
  {
    hide PhaseAfter, HasSecond;
    var n := |replies|;
    var one := replies[..n - 1];
    var two := one[..|one| - 1];
    assert two == replies[..n - 2];
    SecondInPrefix(replies, n - 3);
    SecondInPrefix(one, n - 3);
    HistoryDecides(two, SecondTz);
    HistoryDecides(one, Model);
    HistoryDecides(replies, Store);
  }

  /** The whole conversation of a run that stores the model: the password; images until one is
      captured; its conversion into slot 1; images until the finger is lifted, and until one is
      captured again; its conversion into slot 2; the model; the store command. */
  lemma StoredConversation(replies: seq<Reply>) returns (a: nat, b: nat)
    requires ReadyToStore(replies)
    ensures var n, sent := |replies|, Sent(replies);
            && SecondCapture(replies, a, b, n - 3)
            && |sent| == n + 1
            && sent[0] == VerifyPassword
            && sent[a] == GenerateImage && sent[a + 1] == Image2Tz(1)
            && sent[b] == GenerateImage && sent[n - 3] == GenerateImage
            && (forall i :: 1 <= i <= n - 3 && i != a + 1 ==> sent[i] == GenerateImage)
            && sent[n - 2] == Image2Tz(2) && sent[n - 1] == CreateModel && sent[n] == StoreModel(1, 1)
  {
    hide PhaseAfter, Sent, SecondCapture, ReadyToStore;
    var n := |replies|;
    assert HasSecond(replies, n - 3) && n >= 3 by { ReadyHasSecond(replies); }
    a, b :| SecondCapture(replies, a, b, n - 3);
    CapturePlaces(replies, a, b, n - 3);
    PhasesAfterCapture(replies);
    assert replies[..n] == replies;
    NeverEnded(replies);
    Begins(replies);
    SentAt(replies, 0, Password);
    SentAt(replies, n - 2, SecondTz);
    SentAt(replies, n - 1, Model);
    SentAt(replies, n, Store);
    forall i | 1 <= i <= n - 3
      ensures Sent(replies)[i] == if i == a + 1 then Image2Tz(1) else GenerateImage
    {
      PhasesOfCapture(replies, a, b, n - 3, i);
      SentAt(replies, i, PhaseAfter(replies[..i]));
    }
  }

  lemma ReadyHasSecond(replies: seq<Reply>)
    requires ReadyToStore(replies)
    ensures |replies| >= 3 && HasSecond(replies, |replies| - 3)
  {
  }

  lemma CapturePlaces(replies: seq<Reply>, a: nat, b: nat, c: nat)
    requires SecondCapture(replies, a, b, c)
    ensures 1 <= a && a + 2 <= b < c < |replies|
  {
  }

  lemma Begins(replies: seq<Reply>)
    ensures PhaseAfter(replies[..0]) == Password
  {
  }

  /** The store command is among those sent exactly when the enrolment got that far. */
  lemma {:induction false} StoreSentIff(replies: seq<Reply>)
    ensures StoreModel(1, 1) in Sent(replies) <==> exists n :: 0 <= n <= |replies| && ReadyToStore(replies[..n])
    decreases |replies|
  {
    hide ReadyToStore;
    StoresOnlyWhenReady(replies);
    assert replies[..|replies|] == replies;
    if replies != [] {
      var init := replies[..|replies| - 1];
      StoreSentIff(init);
      assert forall k :: 0 <= k <= |init| ==> init[..k] == replies[..k];
      if n :| 0 <= n <= |replies| && ReadyToStore(replies[..n]) && n < |replies| {
        assert ReadyToStore(init[..n]);
      }
    }
  }

  /** The program returns 0 exactly when it asked to store the model and the answer was OK. */
  lemma {:induction false} ReturnsZeroIffStored(replies: seq<Reply>)
    ensures PhaseAfter(replies) == Ended(Returned(0)) <==>
              exists n :: 0 <= n < |replies| && ReadyToStore(replies[..n]) && Is(replies, n, ERR_OK)
    decreases |replies|
  {
    hide ReadyToStore;
    if replies != [] {
      var n := |replies| - 1;
      var init := replies[..n];
      ReturnsZeroIffStored(init);
      StoresOnlyWhenReady(init);
      forall k | 0 <= k < n
        ensures init[..k] == replies[..k] && (Is(init, k, ERR_OK) <==> Is(replies, k, ERR_OK))
      {
      }
      if k :| 0 <= k < n && ReadyToStore(replies[..k]) && Is(replies, k, ERR_OK) {
        assert ReadyToStore(init[..k]) && Is(init, k, ERR_OK);
      }
    }
  }

  lemma OneMoreReply(replies: seq<Reply>, r: Reply)
    ensures PhaseAfter(replies + [r]) == Next(PhaseAfter(replies), r)
    ensures Sent(replies + [r]) == Sent(replies) + Pending(Next(PhaseAfter(replies), r))
  {
    assert (replies + [r])[..|replies|] == replies;
  }

  /** An ordinary enrolment, code by code. */
  lemma OrdinaryEnrolment()
    ensures var replies := [Code(0), Code(0), Code(0), Code(2), Code(0), Code(0), Code(0), Code(0)];
            && PhaseAfter(replies) == Ended(Returned(0))
            && Sent(replies) == [VerifyPassword, GenerateImage, Image2Tz(1), GenerateImage, GenerateImage,
                                 Image2Tz(2), CreateModel, StoreModel(1, 1)]
  {
    hide PhaseAfter, Sent;
    var r1 := [Code(0)];
    var r3 := r1 + [Code(0)] + [Code(0)];
    var r6 := r3 + [Code(2)] + [Code(0)] + [Code(0)];
    AfterPassword(0);
    OneMoreReply(r1, Code(0));
    OneMoreReply(r1 + [Code(0)], Code(0));
    OneMoreReply(r3, Code(2));
    OneMoreReply(r3 + [Code(2)], Code(0));
    OneMoreReply(r3 + [Code(2)] + [Code(0)], Code(0));
    OneMoreReply(r6, Code(0));
    OneMoreReply(r6 + [Code(0)], Code(0));
    assert [Code(0), Code(0), Code(0), Code(2), Code(0), Code(0), Code(0), Code(0)] == r6 + [Code(0)] + [Code(0)];
  }

  /** A run ends with an exception exactly when a fault comes while the program waits; every other
      end is a return, with 0 or 1. */
  lemma {:induction false} ThrewIffFault(replies: seq<Reply>)
    ensures PhaseAfter(replies) == Ended(Threw)
            <==> exists n :: 0 <= n < |replies| && !PhaseAfter(replies[..n]).Ended? && replies[n].Fault?
    ensures PhaseAfter(replies).Ended? ==> PhaseAfter(replies).exit in {Threw, Returned(0), Returned(1)}
    decreases |replies|
  {
    hide PhaseAfter;
    NoReplies();
    if replies != [] {
      var n := |replies| - 1;
      var init := replies[..n];
      ThrewIffFault(init);
      LastReply(replies);
      assert forall k :: 0 <= k < n ==> init[..k] == replies[..k] && init[k] == replies[k];
      if PhaseAfter(init) == Ended(Threw) {
        var k :| 0 <= k < n && !PhaseAfter(init[..k]).Ended? && init[k].Fault?;
        assert !PhaseAfter(replies[..k]).Ended? && replies[k].Fault?;
      }
    }
  }

  lemma NoReplies()
    ensures PhaseAfter([]) == Password
  {
  }

  lemma LastReply(replies: seq<Reply>)
    requires replies != []
    ensures PhaseAfter(replies) == Next(PhaseAfter(replies[..|replies| - 1]), replies[|replies| - 1])
  {
  }

  lemma AfterPassword(code: Byte)
    ensures PhaseAfter([Code(code)]) == FirstImage && Sent([Code(code)]) == [VerifyPassword, GenerateImage]
  {
    assert [Code(code)][..0] == [];
    assert Sent([]) == [VerifyPassword];
  }

  /** `verifyPassword` does not look at the confirmation code: for every run, another code in its
      place, such as that of a refused password (0x13), changes nothing that is sent and nothing
      of how the run ends. */
  lemma {:induction false} PasswordCodeIgnored(code: Byte, other: Byte, rest: seq<Reply>)
    ensures PhaseAfter([Code(code)] + rest) == PhaseAfter([Code(other)] + rest)
    ensures Sent([Code(code)] + rest) == Sent([Code(other)] + rest)
    decreases |rest|
  {
    hide Next, Pending;
    if rest == [] {
      assert [Code(code)] + rest == [Code(code)] && [Code(other)] + rest == [Code(other)];
      AfterPassword(code);
      AfterPassword(other);
    } else {
      var n := |rest| - 1;
      PasswordCodeIgnored(code, other, rest[..n]);
      assert ([Code(code)] + rest)[..n + 1] == [Code(code)] + rest[..n];
      assert ([Code(other)] + rest)[..n + 1] == [Code(other)] + rest[..n];
    }
  }
}
