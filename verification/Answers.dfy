/** What every request is answered, whom the answer names, and what a refused request leaves alone. */
module Answers {
  import opened Types
  import opened Messages
  import opened MetadataLog
  import opened Device
  import opened BootDecision
  import opened JournalRoom
  import opened Link
  import opened Transfer
  import opened Completion
  import Flash = FlashImage

  // ---- Whom an answer names ----

  /**
   * A bootloader's answer carries the request's command and sequence number and the offset received
   * so far; it names the request's session, except that QUERY tells the device's own.
   */
  lemma AnswersEcho(b: Boot, req: Request, f: Faults)
    requires IsBoot(b)
    ensures var (b', r) := Dispatch(b, req, f);
            && r.command == req.command && r.seqno == req.seqno
            && r.session == (if req.command == Query && IsBare(req) then if b.ram.has then b.ram.rec.session else 0 else req.session)
            && (req.command != Start && req.command != Data ==> r.offset == Received(b))
            && (req.command == Data ==> r.offset == Received(b') && r.body == AckBody(r.reply, req.seqno, Received(b')))
  {
    hide HandleStart, HandleErase, HandleData, HandleVerify, HandleAbort, WellFormed;
  }

  /**
   * HELLO, GET_INFO, ENTER_BOOT and QUERY are answered by every bootloader, whatever its state, unless
   * they are malformed; QUERY is BUSY during an erase; the log is not served.  None of them changes
   * anything.
   */
  lemma ReadsAreAnswered(b: Boot, req: Request, f: Faults)
    requires IsBoot(b)
    requires req.command == Hello || req.command == GetInfo || req.command == EnterBoot || req.command == Query || req.command == GetLog
    ensures var (b', r) := Dispatch(b, req, f);
            && b' == b
            && r.reply == if !IsBare(req) || req.command == GetLog then BadFrame
                          else if req.command == Query && State(b) == ERASING then Busy else OK
  {
    hide WellFormed;
  }

  /** The application answers HELLO, GET_INFO and ENTER_BOOT, and BUSY to everything else, which changes nothing. */
  lemma ApplicationAnswers(log: Log, version: u32, req: Request, f: Faults)
    requires WellFormed(log)
    ensures var (log', r) := AppDispatch(log, version, req, f);
            && r.command == req.command && r.seqno == req.seqno && r.session == req.session && r.offset == 0
            && (req.command != Hello && req.command != GetInfo && req.command != EnterBoot ==> r.reply == Busy)
            && (req.command != EnterBoot ==> log' == log)
            && (r.reply == BadFrame ==> !IsBare(req))
  {
    hide WellFormed, CompactIfNeeded, Append, Latest, HasUsed;
  }

  // ---- Refusals ----

  /** The states in which a command of a session is served. */
  predicate ServedIn(command: Command, state: u16) {
    match command
    case Erase => state == UPDATE_REQUESTED || state == ERASING || state == RECEIVING
    case VerifyImage => state == RECEIVING || state == VERIFYING
    case Activate => state == PENDING_BOOT
    case _ => true
  }

  /**
   * ERASE, VERIFY, ACTIVATE and ABORT with a payload or an offset are malformed; without them, from
   * another session, they are refused as such, and in a state that does not serve them they wait.  An
   * incomplete image cannot be verified.  None of these answers changes anything.
   */
  lemma SessionRefusals(b: Boot, req: Request, f: Faults)
    requires IsBoot(b)
    requires req.command == Erase || req.command == VerifyImage || req.command == Activate || req.command == Abort
    ensures var (b', r) := Dispatch(b, req, f);
            var own := b.ram.has && req.session == b.ram.rec.session;
            && (r.reply == BadFrame <==> !IsBare(req))
            && (r.reply == BadSession <==> IsBare(req) && !own)
            && (IsBare(req) && own && !ServedIn(req.command, State(b)) ==> r.reply == Busy && b' == b)
            && (r.reply == BadOffset <==>
                  IsBare(req) && own && req.command == VerifyImage && ServedIn(req.command, State(b)) &&
                  b.ram.rec.received != b.ram.rec.size)
            && (r.reply == BadFrame || r.reply == BadSession || r.reply == BadOffset ==> b' == b)
  {
    hide Append, WellFormed, ImageCrc;
  }

  /** A chunk that a receiving device of this size can look at. */
  predicate WellCut(offset: nat, length: nat, size: nat) {
    0 < length && offset % 4 == 0 && offset < size && length <= size - offset && (length % 4 == 0 || length == size - offset)
  }

  /**
   * DATA of another session is refused as such, and outside RECEIVING it waits.  A chunk that is empty,
   * or starts on a word but does not fit, has a bad size, any other badly cut one a bad offset; a well
   * cut one has a bad offset exactly if it leaves a gap or overlaps the end of what is received.  None
   * of these answers changes anything.
   */
  lemma DataRefusals(b: Boot, req: Request, f: Faults)
    requires IsBoot(b)
    ensures var (b', reply) := HandleData(b, req, f);
            var own := b.ram.has && req.session == b.ram.rec.session;
            var o, n, size, received := req.offset, |req.payload|, b.ram.rec.size, b.ram.rec.received;
            var receiving := own && State(b) == RECEIVING && size > 0;
            && (reply == BadSession <==> !own)
            && (own && State(b) != RECEIVING ==> reply == Busy)
            && (receiving ==> (reply == BadImageSize <==> n == 0 || (o % 4 == 0 && (o >= size || n > size - o))))
            && (receiving ==> (reply == BadOffset <==>
                  if WellCut(o, n, size) then o > received || (o < received < o + n)
                  else n > 0 && (o % 4 != 0 || (o < size && n <= size - o))))
            && (reply == BadSession || reply == Busy || reply == BadImageSize || reply == BadOffset ==> b' == b)
  {
    hide WellFormed, StoreChunk, Append, IsCheckpoint;
  }

  // ---- The service loop ----

  /** An addressed frame or a request ends the recovery window; from then on only a reset leaves the service. */
  lemma ServiceUntilReset(s: System, e: Event)
    requires IsSystem(s)
    ensures var s' := Step(s, e).0;
            && (s.mode.Service? ==> s'.mode.Service? || s'.mode.Off?)
            && (s.mode.Window? && (e.Addressed? || e.Receive?) ==> s'.mode.Service? || s'.mode.Off?)
            && (s.mode.Window? && s.mode.ram.activity && e.WindowEnds? ==> s' == s)
            && (s.mode.Silent? ==> s'.mode.Silent? || s'.mode.Off?)
  {
    hide WellFormed, Dispatch, RunDeferred, Decide, Start0;
  }

  // ---- Records that end an update ----

  /** A trial image that was started three times is given up: FAILED with the code of a timeout. */
  lemma ExhaustedTrialFails(s: System, transportUp: bool, image: Image, f: Faults, d: Record)
    requires IsSystem(s) && s.mode.Off? && Latest(s.log) == Some(d) && d.state == PENDING_BOOT && d.error >= 3
    requires Startable(s.flash[..8]) && AppendPossible(s.log, f.first)
    ensures var s' := Step(s, PowerOn(transportUp, image, f)).0;
            && Latest(s'.log) == Some(d.(state := FAILED, error := 13, seqno := (d.seqno + 1) as u32))
            && (s'.mode.Service? || s'.mode.Silent?)
  {
    VectorsOfImage(s.flash);
    LatestIsValid(s.log);
    var desired := d.(state := FAILED, error := TIMEOUT_CODE);
    AppendSucceedsExactly(s.log, desired, f.first);
    AppendOutcome(s.log, desired, f.first);
    hide Append, Latest, WellFormed, IsAppValid, Startable, AppendPossible, AppInit;
  }

  /**
   * VERIFY of a complete image first makes the attempt durable and then its verdict: PENDING_BOOT
   * without an error if the CRC-32 agrees, FAILED with the code of a failed verification otherwise.
   */
  lemma VerdictIsRecorded(b: Boot, req: Request)
    requires IsBoot(b) && b.ram.has && !b.ram.corrupt && Latest(b.log) == Some(b.ram.rec) && FreeCount(b.log) >= 2
    requires b.ram.rec.seqno < 0xFFFF_FFFD && b.ram.rec.received == b.ram.rec.size
    requires IsBare(req) && req.session == b.ram.rec.session && (State(b) == RECEIVING || State(b) == VERIFYING)
    ensures var b' := HandleVerify(b, req, NONE_FAIL).0;
            var matches := ImageCrc(b.flash, b.ram.rec.size) == b.ram.rec.crc32;
            var spent := if State(b) == RECEIVING then 2 else 1;
            && Latest(b'.log) == Some(b.ram.rec.(state := if matches then PENDING_BOOT else FAILED,
                                                 error := if matches then 0 else 11,
                                                 seqno := b.ram.rec.seqno + spent))
            && FreeCount(b'.log) == FreeCount(b.log) - spent
  {
    hide AppendState, FreeCount, ImageCrc;
    var b1 := if State(b) == RECEIVING then AppendState(b, VERIFYING, 0, NO_FAULTS).0 else b;
    if State(b) == RECEIVING {
      StateAppended(b, VERIFYING, 0);
    }
    StateAppended(b1, PENDING_BOOT, 0);
    StateAppended(b1, FAILED, VERIFY_FAILED_CODE);
    hide Latest, WellFormed;
  }

  /** An erase that the flash refuses ends the update: FAILED with the code of a flash error. */
  lemma FailedEraseIsRecorded(b: Boot, f: Faults)
    requires IsBoot(b) && b.ram.has && !b.ram.corrupt && b.ram.deferred == EraseApp && f.second == NO_FAULTS
    requires Latest(b.log).Some? && FreeCount(b.log) > 0 && Latest(b.log).value.seqno < 0xFFFF_FFFE
    requires PayloadValid(b.ram.rec) && Flash.Erase(b.flash, b.ram.rec.size, f.flash).1 != Flash.Ok
    ensures Latest(RunDeferred(b, f).0.log) ==
            Some(b.ram.rec.(state := FAILED, error := 10, seqno := (Latest(b.log).value.seqno + 1) as u32))
  {
    hide AppendState, FreeCount, Flash.Erase;
    var flash' := Flash.Erase(b.flash, b.ram.rec.size, f.flash).0;
    StateAppended(b.(ram := b.ram.(deferred := NoAction), flash := flash'), FAILED, FLASH_ERROR_CODE);
    hide Latest, WellFormed;
  }

  /** ENTER_BOOT leaves a request of its session and no manifest. */
  lemma EnterBootIsRecorded(log: Log, req: Request, f: Faults)
    requires WellFormed(log) && AppEnterBoot(log, req, f).1 == OK
    ensures var log' := AppEnterBoot(log, req, f).0;
            Latest(log').Some? &&
            Latest(log').value == Record(UPDATE_REQUESTED, Latest(log').value.seqno, req.session, 0, 0, 0, 0, ZERO_DIGEST, 0)
  {
    var (log1, status) := CompactIfNeeded(log, APP_MAX_REQUIRED_RECORDS, f.first);
    hide CompactIfNeeded, Append, Latest, HasUsed;
    assert IsBare(req) && (status == MetadataLog.Ok || status == MetadataLog.Empty);
    AppendOutcome(log1, InitRecord(UPDATE_REQUESTED).(session := req.session), f.second);
  }

  // ---- The gateway ----

  /** An answer to a chunk that sends the loop on acknowledges that very chunk and names another offset inside the image. */
  lemma JudgeMoves(result: Result, seqno: u32, offset: u32, size: u32, next: u32)
    requires Judge(result, seqno, offset, size) == Goto(next)
    ensures result.Got? && result.response.body == AckBody(result.response.reply, seqno, next)
    ensures next <= size
    ensures (result.response.reply == OK && next > offset) || (result.response.reply == BadOffset && next != offset)
  {
  }
}
