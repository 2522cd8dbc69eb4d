/** Trick play of the Hauppauge emulation: a state machine driven by keys, commands
    from the server (RDC), replies of the media server and a timer.  Every handler is
    one atomic step; what it cannot decide itself comes in as a parameter. */
module TrickPlay {

  // ----- what the server may be told about -----

  /** The events of trick play: a key starts it in a direction, step requests are sent,
      the play key asks for its end, and it is left. */
  datatype Note = Start(forward: bool) | Step(forward: bool) | Play | Leave

  /** The protocol: out of trick play; stepping; asked to play; the last step sent. */
  datatype Shuttle = Out | Stepping(forward: bool) | Playing(forward: bool) | Resuming(forward: bool) | Broken

  function After1(s: Shuttle, n: Note): Shuttle {
    match s
    case Out => if n.Start? then Stepping(n.forward) else Broken
    case Stepping(d) =>
      if n.Leave? then Out
      else if n.Play? then Playing(d)
      else if n == Step(d) then s
      else Broken
    case Playing(d) =>
      if n.Leave? then Out else if n == Step(d) then Resuming(d) else Broken
    case Resuming(d) =>
      if n.Leave? then Out else Broken
    case Broken => Broken
  }

  ghost function After(log: seq<Note>): Shuttle {
    if log == [] then Out else After1(After(log[..|log| - 1]), log[|log| - 1])
  }

  lemma AfterAppend(log: seq<Note>, n: Note)
    ensures After(log + [n]) == After1(After(log), n)
  {
    assert (log + [n])[..|log|] == log;
  }

  /** The last key that started trick play, when nothing left it since. */
  ghost predicate StartedBy(log: seq<Note>, i: nat, forward: bool) {
    i < |log| && log[i] == Start(forward)
    && forall k :: i < k < |log| ==> !log[k].Start? && !log[k].Leave?
  }

  /** The step request has the direction of the key that started this trick play. */
  ghost predicate DirectedByKey(log: seq<Note>, i: nat)
    requires i < |log| && log[i].Step?
  {
    exists j: nat :: StartedBy(log[..i], j, log[i].forward)
  }

  lemma {:induction false} InsideIsStarted(log: seq<Note>) returns (i: nat)
    requires After(log) != Out && After(log) != Broken
    ensures StartedBy(log, i, After(log).forward)
  {
    var n := |log| - 1;
    var front := log[..n];
    if After(front) == Out {
      i := n;
    } else {
      i := InsideIsStarted(front);
    }
  }

  /** In a run that keeps the protocol every step request has the direction of the key
      that started this trick play, and trick play was not left in between. */
  lemma StepHasKeyDirection(log: seq<Note>, i: nat)
    requires After(log) != Broken && i < |log| && log[i].Step?
    ensures DirectedByKey(log, i)
  {
    PrefixKeeps(log, i + 1);
    PrefixKeeps(log, i);
    assert log[..i + 1] == log[..i] + [log[i]];
    AfterAppend(log[..i], log[i]);
    var j := InsideIsStarted(log[..i]);
    assert StartedBy(log[..i], j, log[i].forward);
  }

  lemma {:induction false} PrefixKeeps(log: seq<Note>, n: nat)
    requires After(log) != Broken && n <= |log|
    ensures After(log[..n]) != Broken
    decreases |log|
  {
    if n < |log| {
      PrefixKeeps(log[..|log| - 1], n);
      assert log[..|log| - 1][..n] == log[..n];
    } else {
      assert log[..n] == log;
    }
  }

  /** How many step requests were sent. */
  ghost function Steps(log: seq<Note>): nat {
    if log == [] then 0
    else Steps(log[..|log| - 1]) + if log[|log| - 1].Step? then 1 else 0
  }

  /** The directions in which trick play was started, in order. */
  ghost function Directions(log: seq<Note>): seq<bool> {
    if log == [] then []
    else Directions(log[..|log| - 1]) + if log[|log| - 1].Start? then [log[|log| - 1].forward] else []
  }

  /** The log got one note more or none, no start, and a step only when asked for. */
  ghost predicate GrewBy(was: seq<Note>, now: seq<Note>, asked: bool) {
    && was <= now && |now| <= |was| + 1
    && (|now| > |was| ==> !now[|was|].Start? && (now[|was|].Step? ==> asked))
  }

  lemma OneNote(log: seq<Note>, n: Note)
    ensures Steps(log + [n]) == Steps(log) + if n.Step? then 1 else 0
    ensures Directions(log + [n]) == Directions(log) + if n.Start? then [n.forward] else []
  {
    assert (log + [n])[..|log|] == log;
  }

  lemma Grown(was: seq<Note>, now: seq<Note>, asked: bool)
    requires GrewBy(was, now, asked)
    ensures Steps(now) <= Steps(was) + if asked then 1 else 0
    ensures Directions(now) == Directions(was)
  {
    if |now| > |was| {
      assert now == was + [now[|was|]];
      OneNote(was, now[|was|]);
    } else {
      assert now == was;
    }
  }

  /** `a` is got from `b` by leaving some out. */
  ghost predicate Among<T(!new)>(a: seq<T>, b: seq<T>) {
    a == []
    || (b != [] && (Among(a, b[..|b| - 1])
                    || (a[|a| - 1] == b[|b| - 1] && Among(a[..|a| - 1], b[..|b| - 1]))))
  }

  lemma AmongMore<T(!new)>(a: seq<T>, b: seq<T>, x: T)
    requires Among(a, b)
    ensures Among(a, b + [x]) && Among(a + [x], b + [x])
  {
    assert (b + [x])[..|b|] == b && (a + [x])[..|a|] == a;
  }

  lemma AmongOrLeftOut<T(!new)>(a: seq<T>, a': seq<T>, b: seq<T>, x: seq<T>)
    requires Among(a, b) && |x| <= 1 && (a' == a || a' == a + x)
    ensures Among(a', b + x)
  {
    if x == [] {
      assert a + x == a && b + x == b;
    } else {
      AmongMore(a, b, x[0]);
      assert x == [x[0]];
    }
  }

  lemma {:induction false} AmongItself<T(!new)>(a: seq<T>)
    ensures Among(a, a)
  {
    if a != [] {
      AmongItself(a[..|a| - 1]);
    }
  }

  // ----- the emulation -----

  datatype State = Running | StopPending | StepOn | StepPending | StepSeek | StepToPlay | SeekToPlay | Off
                 | ReplayPending | SkipPending | SkipReplayOk | PercentPending | PercentRunning | Percent | Live

  datatype Stopping = NotStopping | StopAsked | Stopped | StoppedAgain | EmptyBuffer

  datatype Media = NoMedia | Video | Audio

  datatype Key = KeyPound | KeyStop | KeyPlay | KeyPause | KeyMenu | KeyOk | KeyPower | KeyFfwd | KeyRewind
               | KeyReplay | KeySkip | KeyDigit(digit: nat) | KeyExit | KeyOther

  datatype Rdc = RdcPlay(sub: int, length: int) | RdcPause | RdcStop | RdcRewind | RdcForward | RdcVolume | RdcOther

  /** What `write` did with the data of a block. */
  datatype Write = All | Part | Nothing

  /** A reply of the media server. */
  datatype Reply = Request(media: Media, length: int)
                 | Data(stepped: bool, blocklen: nat, position: int, first: Write, second: Write)
                 | Seek
                 | Stop(osdVisible: bool)
                 | Eight

  /** A step reply with data, all of it written out at the first try. */
  predicate BringsStep(reply: Reply) {
    reply.Data? && reply.stepped && reply.blocklen != 0 && reply.first == All
  }

  /** The same for a block of the stream. */
  predicate BringsBlock(reply: Reply) {
    reply.Data? && !reply.stepped && reply.blocklen != 0 && reply.first == All
  }

  /** The same note `k` times. */
  ghost function Repeated(n: Note, k: nat): seq<Note> {
    seq(k, _ => n)
  }

  lemma FirstAndMore(before: seq<Note>, n: Note, k: nat)
    ensures before + [n] + Repeated(n, k) == before + Repeated(n, 1 + k)
  {
  }

  lemma OneMoreOf(n: Note, k: nat)
    ensures Repeated(n, k + 1) == Repeated(n, k) + [n] && Repeated(n, 0) == []
  {
  }

  class Emulator {
    var mvpState: State
    var isStopping: Stopping
    var mediatype: Media
    var length: int
    var position: int
    var direction: int
    var scaleMode: int
    var paused: bool
    var extensions: int
    var lastKey: Key
    var retryZero: int

    ghost var log: seq<Note>

    ghost predicate InTrickPlay()
      reads this`mvpState
    {
      || mvpState == StepPending || mvpState == StepSeek || mvpState == StepOn
      || mvpState == StepToPlay || mvpState == SeekToPlay
    }

    /** How the states of the emulation stand in the protocol. */
    ghost function View(): Shuttle
      reads this`mvpState, this`direction
    {
      match mvpState
      case StepPending => Stepping(direction != 0)
      case StepSeek => Stepping(direction != 0)
      case StepOn => Stepping(direction != 0)
      case StepToPlay => Playing(direction != 0)
      case SeekToPlay => Resuming(direction != 0)
      case _ => Out
    }

    ghost predicate Valid()
      reads this`mvpState, this`direction, this`log
    {
      After(log) == View() && (InTrickPlay() ==> direction == 0 || direction == 1)
    }

    constructor ()
      ensures Valid() && mvpState == Running && log == []
    {
      mvpState, isStopping, mediatype := Running, NotStopping, NoMedia;
      length, position, direction, scaleMode := 0, 0, 0, 0;
      paused, extensions, lastKey, retryZero := false, 0, KeyOther, 0;
      log := [];
    }

    /** An assignment of `mvp_state` that is not part of trick play. */
    method Become(s: State)
      requires Valid()
      requires s !in {StepPending, StepSeek, StepOn, StepToPlay, SeekToPlay}
      modifies this`mvpState, this`log
      ensures Valid() && mvpState == s
      ensures log == old(log) + if old(InTrickPlay()) then [Leave] else []
    {
      hide After;
      if mvpState in {StepPending, StepSeek, StepOn, StepToPlay, SeekToPlay} {
        AfterAppend(log, Leave);
        log := log + [Leave];
      }
      mvpState := s;
    }

    /** `media_send_step`: the request carries `direction ? 1 : 0`. */
    method SendStep()
      requires Valid() && View().Stepping?
      modifies this`log
      ensures Valid() && log == old(log) + [Step(direction != 0)]
    {
      hide After;
      ghost var note := Step(direction != 0);
      AfterAppend(log, note);
      log := log + [note];
    }

    /** The key that starts trick play. */
    method StartStepping(dir: int)
      requires Valid() && mvpState == Running && (dir == 0 || dir == 1)
      modifies this`mvpState, this`direction, this`log
      ensures Valid() && mvpState == StepPending && direction == dir
      ensures log == old(log) + [Start(dir == 1)]
    {
      hide After;
      ghost var note := Start(dir == 1);
      AfterAppend(log, note);
      log := log + [note];
      mvpState, direction := StepPending, dir;
    }

    /** The server's answer to the play key: one more step, then play from there. */
    method Resume()
      requires Valid() && mvpState == StepToPlay
      modifies this`mvpState, this`log
      ensures Valid() && mvpState == SeekToPlay && log == old(log) + [Step(direction != 0)]
    {
      hide After;
      ghost var note := Step(direction != 0);
      AfterAppend(log, note);
      log := log + [note];
      mvpState := SeekToPlay;
    }

    /** A key that takes a jump: it is for a film of known length that runs unscaled. */
    ghost predicate Jumps(key: Key)
      reads this
    {
      && key in {KeyFfwd, KeyRewind, KeyReplay, KeySkip}
      && mediatype == Video && isStopping == NotStopping && mvpState == Running
      && scaleMode == 0 && length > 0
    }

    ghost predicate AsksToPlay(key: Key)
      reads this
    {
      mediatype != NoMedia && key == KeyPlay && (mvpState == StepOn || mvpState == StepSeek)
    }

    ghost predicate AsksForPercent(key: Key)
      reads this
    {
      mediatype != NoMedia && key.KeyDigit? && length > 0 && mvpState == Running && extensions == 2
    }

    /** A digit's key code goes into the direction field. */
    ghost predicate KeepsCode(key: Key)
      reads this
    {
      && key.KeyDigit? && mediatype != NoMedia && length > 0 && mvpState == Running
      && (extensions == 2 || mediatype == Video || (key.digit != 1 && key.digit != 3))
    }

    /** What the key does to `mvp_state`. */
    ghost function StateAfterKey(key: Key): State
      reads this
    {
      if Jumps(key) then
        if key == KeyReplay then ReplayPending else if key == KeySkip then SkipPending else StepPending
      else if AsksToPlay(key) then StepToPlay
      else if AsksForPercent(key) then PercentPending
      else if mediatype != NoMedia && key == KeyPower then Off
      else mvpState
    }

    /** What the key does to `is_stopping`. */
    ghost function StoppingAfterKey(key: Key): Stopping
      reads this
    {
      if mediatype == NoMedia then (if isStopping == StoppedAgain then NotStopping else isStopping)
      else if key != KeyStop then isStopping
      else if mvpState != Running && mvpState != StepOn then EmptyBuffer
      else if scaleMode == 0 then StopAsked
      else isStopping
    }

    /** The play key while stepping. */
    method AskToPlay()
      requires Valid() && (mvpState == StepOn || mvpState == StepSeek)
      modifies this`mvpState, this`log
      ensures Valid() && mvpState == StepToPlay && log == old(log) + [Play]
    {
      hide After;
      AfterAppend(log, Play);
      mvpState, log := StepToPlay, log + [Play];
    }

    /** What the key adds to the log. */
    ghost function NotesOfKey(key: Key): seq<Note>
      reads this
    {
      if Jumps(key) && (key == KeyFfwd || key == KeyRewind) then [Start(key == KeyFfwd)]
      else if AsksToPlay(key) then [Play]
      else if mediatype != NoMedia && key == KeyPower && InTrickPlay() then [Leave]
      else []
    }

    /** `mvp_server_remote_key`, past the guards that drop a key. */
    method RemoteKey(key: Key)
      requires Valid()
      modifies this`lastKey, this`isStopping, this`mvpState, this`direction, this`log
      ensures Valid() && lastKey == key
      ensures mvpState == old(StateAfterKey(key)) && isStopping == old(StoppingAfterKey(key))
      ensures log == old(log) + old(NotesOfKey(key))
      ensures old(mvpState) != StepPending && mvpState == StepPending <==>
                && (key == KeyFfwd || key == KeyRewind) && mediatype == Video && length > 0 && scaleMode == 0
                && old(mvpState) == Running && old(isStopping) == NotStopping
      ensures direction == if old(NotesOfKey(key)) == [Start(true)] then 1
                           else if old(NotesOfKey(key)) == [Start(false)] then 0
                           else if old(KeepsCode(key)) then key.digit + 1
                           else old(direction)
    {
      hide After, Valid;
      lastKey := key;
      if mediatype == NoMedia {
        if isStopping == StoppedAgain {
          isStopping := NotStopping;
        }
        return;
      }
      if isStopping != NotStopping && key in {KeyFfwd, KeyRewind, KeyReplay, KeySkip} {
        return;
      }
      match key {
        case KeyStop =>
          if mvpState == Running || mvpState == StepOn {
            if scaleMode == 0 {
              isStopping := StopAsked;
            }
          } else {
            isStopping := EmptyBuffer;
          }
        case KeyPlay =>
          if mvpState == StepOn || mvpState == StepSeek {
            AskToPlay();
          }
        case KeyPower => Become(Off);
        case KeyFfwd =>
          if mediatype != Audio && mvpState == Running && scaleMode == 0 && length > 0 {
            StartStepping(1);
          }
        case KeyRewind =>
          if mediatype != Audio && mvpState == Running && scaleMode == 0 && length > 0 {
            StartStepping(0);
          }
        case KeyReplay =>
          if mediatype != Audio && length > 0 && mvpState == Running && scaleMode == 0 {
            Become(ReplayPending);
          }
        case KeySkip =>
          if mediatype != Audio && length > 0 && mvpState == Running && scaleMode == 0 {
            Become(SkipPending);
          }
        case KeyDigit(digit) => DigitKey(digit);
        case _ =>
      }
    }

    /** A digit: its key code goes into `direction`, which trick play uses too. */
    method DigitKey(digit: nat)
      requires Valid() && mediatype != NoMedia
      modifies this`mvpState, this`direction, this`log
      ensures Valid() && log == old(log)
      ensures mvpState == old(StateAfterKey(KeyDigit(digit)))
      ensures direction == if old(KeepsCode(KeyDigit(digit))) then digit + 1 else old(direction)
    {
      if length > 0 && mvpState == Running {
        if extensions == 2 {
          Become(PercentPending);
        } else if mediatype == Audio && (digit == 1 || digit == 3) {
          return;
        }
        direction := digit + 1;
      }
    }

    /** `HandleRDCMessage`. */
    method HandleRdc(msg: Rdc)
      requires Valid()
      modifies this`mvpState, this`isStopping, this`paused, this`lastKey, this`log
      ensures Valid()
      ensures mvpState == match msg
                          case RdcPlay(sub, len) => old(StateAfterPlay(sub, len))
                          case RdcStop => if old(StopLeaves()) then Running else old(mvpState)
                          case _ => old(mvpState)
      ensures lastKey == if msg.RdcVolume? then KeyDigit(0) else old(lastKey)
      ensures GrewBy(old(log), log, msg.RdcPlay?)
      ensures msg.RdcStop? && old(InTrickPlay()) && mediatype == Video && old(isStopping) == NotStopping
              && lastKey != KeyExit ==>
                mvpState == Running && isStopping == Stopped && log == old(log) + [Leave]
      ensures msg.RdcPlay? && msg.sub == 0 && !old(paused) && old(mvpState) == StepToPlay ==>
                mvpState == SeekToPlay && log == old(log) + [Step(direction != 0)]
                && isStopping == old(isStopping)
    {
      hide After, Valid;
      match msg {
        case RdcPlay(sub, len) => RdcPlayMessage(sub, len);
        case RdcStop => RdcStopMessage();
        case RdcVolume => lastKey := KeyDigit(0);
        case _ =>
      }
    }

    /** The play command ends a pause, answers the play key, or starts a new stream
        over a running one. */
    ghost predicate Resumes(sub: int)
      reads this
    {
      mvpState == StepToPlay && (sub < 0 || sub > 4 || (sub == 0 && !paused))
    }

    ghost predicate StopsForNew(sub: int, len: int)
      reads this
    {
      && sub == 0 && len != 0 && !paused && mediatype != NoMedia && isStopping == NotStopping
      && mvpState != StepToPlay && mvpState != StopPending
    }

    ghost function StateAfterPlay(sub: int, len: int): State
      reads this
    {
      if Resumes(sub) then SeekToPlay
      else if StopsForNew(sub, len) then Live
      else if sub == 2 || sub == 3 then SkipReplayOk
      else if sub == 4 && mediatype != NoMedia then PercentRunning
      else mvpState
    }

    method RdcPlayMessage(sub: int, len: int)
      requires Valid()
      modifies this`mvpState, this`isStopping, this`paused, this`log
      ensures Valid() && mvpState == old(StateAfterPlay(sub, len))
      ensures isStopping == if old(StopsForNew(sub, len)) then StopAsked else old(isStopping)
      ensures paused == (old(paused) && sub != 0)
      ensures log == old(log) + if old(Resumes(sub)) then [Step(direction != 0)]
                                else if old(InTrickPlay()) && !InTrickPlay() then [Leave]
                                else []
    {
      hide After, Valid;
      if sub == 0 {
        if paused {
          paused := false;
        } else if mvpState == StepToPlay {
          Resume();
        } else if mediatype != NoMedia && mvpState != StopPending {
          if len == 0 && mvpState == Running {
            return;
          }
          if isStopping == NotStopping && len != 0 {
            isStopping := StopAsked;
            Become(Live);
          }
        }
      } else if sub == 2 || sub == 3 {
        Become(SkipReplayOk);
      } else if sub == 4 {
        if mediatype != NoMedia {
          Become(PercentRunning);
        }
      } else if sub != 1 && mvpState == StepToPlay {
        Resume();
      }
    }

    /** The stop command ends what is neither running, nor ending, nor stopping already. */
    ghost predicate StopLeaves()
      reads this
    {
      && mediatype == Video && isStopping == NotStopping && lastKey != KeyExit
      && mvpState != StopPending && mvpState != Live
    }

    method RdcStopMessage()
      requires Valid()
      modifies this`mvpState, this`isStopping, this`paused, this`log
      ensures Valid() && !paused
      ensures mvpState == if old(StopLeaves()) then Running else old(mvpState)
      ensures isStopping == if mediatype == NoMedia then old(isStopping)
                            else if old(isStopping) == Stopped then StoppedAgain
                            else if old(StopLeaves() || isStopping != NotStopping || mediatype == Audio
                                        || lastKey == KeyExit) then Stopped
                            else NotStopping
      ensures log == old(log) + if old(InTrickPlay() && StopLeaves()) then [Leave] else []
    {
      hide After, Valid;
      paused := false;
      if mediatype == NoMedia {
      } else if isStopping == Stopped {
        isStopping := StoppedAgain;
      } else if isStopping != NotStopping || mediatype == Audio || lastKey == KeyExit {
        isStopping := Stopped;
      } else if mvpState == Running {
        isStopping := Stopped;
      } else if mvpState != StopPending && mvpState != Live {
        Become(Running);
        isStopping := Stopped;
      }
    }

    /** `media_read_message`. */
    method HandleReply(reply: Reply)
      requires Valid()
      modifies this`mvpState, this`isStopping, this`mediatype, this`length, this`position
      modifies this`retryZero, this`log
      ensures Valid()
      ensures mvpState == match reply
                          case Request(media, _) => if media != NoMedia then Running else old(mvpState)
                          case Data(stepped, blocklen, pos, first, second) =>
                            old(StateAfterData(stepped, blocklen, pos, first, second))
                          case Seek =>
                            if old(View()).Stepping? then StepSeek
                            else if AwaitsSeek(old(mvpState)) then Running else old(mvpState)
                          case Stop(osdVisible) =>
                            if old(StaysLive(osdVisible)) then Live else Running
                          case Eight => old(mvpState)
      ensures reply.Request? && reply.media != NoMedia ==>
                mediatype == reply.media && isStopping == NotStopping && length == reply.length && position == 0
      ensures GrewBy(old(log), log, reply.Data? || reply.Seek?)
      ensures reply.Data? || reply.Seek? ==> isStopping == old(isStopping) && mediatype == old(mediatype)
      ensures BringsStep(reply) && old(mvpState) in {StepSeek, StepOn} && old(isStopping) == NotStopping ==>
                mvpState == StepOn && log == old(log) + [Step(direction != 0)]
      ensures BringsBlock(reply) && old(mvpState) in {StepPending, StepSeek} && old(isStopping) == NotStopping ==>
                mvpState == StepSeek && log == old(log)
      ensures reply.Seek? && old(mvpState) in {StepPending, StepSeek, StepOn} ==>
                mvpState == StepSeek && log == old(log) + [Step(direction != 0)]
      ensures reply.Data? && reply.blocklen == 0
              && (old(mvpState) == StepOn || (reply.stepped && old(mvpState) == StepSeek)) ==>
                mvpState == StopPending && log == old(log) + [Leave]
      ensures reply.Stop? ==> mediatype == NoMedia && isStopping == NotStopping && !InTrickPlay()
      ensures (reply.Seek? || BringsStep(reply)) && old(mvpState) == SeekToPlay ==>
                mvpState == Running && log == old(log) + [Leave]
    {
      hide After, Valid;
      match reply {
        case Request(media, len) =>
          if media != NoMedia {
            mediatype, isStopping, length, position := media, NotStopping, len, 0;
            if mvpState != Running {
              Become(Running);
            }
          }
        case Data(stepped, blocklen, pos, first, second) => DataReply(stepped, blocklen, pos, first, second);
        case Seek => SeekReply();
        case Stop(osdVisible) => StopReply(osdVisible);
        case Eight =>
      }
    }

    /** The state once a step reply, or the first data after a jump, was seen. */
    static ghost function Arrived(s: State, stepped: bool): State {
      if s == StepSeek && stepped then StepOn
      else if (s == SeekToPlay && stepped) || s == SkipReplayOk || s == Percent then Running
      else if s == PercentRunning then Percent
      else s
    }

    /** The block was written out, or need not be any more. */
    static ghost predicate Written(s: State, stopping: Stopping, first: Write, second: Write) {
      || s == Live || first == All
      || (first == Part && (stopping != NotStopping || second == All))
    }

    /** A block sets off the next step when it was written out and nothing stops. */
    static ghost predicate Goes(s: State, stopping: Stopping, first: Write, second: Write) {
      stopping == NotStopping && Written(s, stopping, first, second)
    }

    /** The end of the data is asked for once more: it came behind the end of a film. */
    ghost predicate AsksAgain(stepped: bool, pos: int)
      reads this
    {
      Arrived(mvpState, stepped) == Running && retryZero == 0 && mediatype == Video
      && (if stepped then pos else position) > length
    }

    ghost function StateAfterData(stepped: bool, blocklen: nat, pos: int, first: Write, second: Write): State
      reads this
    {
      var s := Arrived(mvpState, stepped);
      if blocklen == 0 then StateAfterEnd(s, AsksAgain(stepped, pos))
      else if s == StepPending && Goes(s, isStopping, first, second) then StepSeek
      else s
    }

    static ghost function StateAfterEnd(s: State, again: bool): State {
      if (s == Running || s == StepOn) && !again then StopPending else s
    }

    /** What the data adds to the log in a state. */
    ghost function NotesIn(s: State, blocklen: nat, first: Write, second: Write): seq<Note>
      reads this`isStopping, this`direction
    {
      if s != StepOn then []
      else if blocklen == 0 then [Leave]
      else if Goes(StepOn, isStopping, first, second) then [Step(direction != 0)]
      else []
    }

    /** MEDIA_STEP, which falls through to MEDIA_BLOCK, or MEDIA_BLOCK. */
    method DataReply(stepped: bool, blocklen: nat, pos: int, first: Write, second: Write)
      requires Valid()
      modifies this`mvpState, this`position, this`retryZero, this`log
      ensures Valid()
      ensures mvpState == old(StateAfterData(stepped, blocklen, pos, first, second))
      ensures log == old(log) + if stepped && old(mvpState) == SeekToPlay then [Leave]
                                else NotesIn(Arrived(old(mvpState), stepped), blocklen, first, second)
      ensures position == if blocklen == 0 && (if stepped then pos else old(position)) < length then length
                          else if stepped || blocklen != 0 then pos else old(position)
      ensures retryZero == if blocklen != 0 then 0
                           else if old(AsksAgain(stepped, pos)) then 1 else old(retryZero)
    {
      hide After, Valid, View;
      if stepped {
        position := pos;
      }
      Arrive(stepped);
      Deliver(blocklen, pos, first, second);
    }

    method Deliver(blocklen: nat, pos: int, first: Write, second: Write)
      requires Valid()
      modifies this`mvpState, this`position, this`retryZero, this`log
      ensures Valid()
      ensures log == old(log) + NotesIn(old(mvpState), blocklen, first, second)
      ensures blocklen != 0 ==>
                && mvpState == (if old(mvpState) == StepPending && Goes(StepPending, isStopping, first, second)
                                then StepSeek else old(mvpState))
                && retryZero == 0 && position == pos
      ensures blocklen == 0 ==>
                var again := old(mvpState) == Running && old(retryZero) == 0 && mediatype == Video
                             && old(position) > length;
                && mvpState == StateAfterEnd(old(mvpState), again)
                && retryZero == (if again then 1 else old(retryZero))
                && position == (if old(position) < length then length else old(position))
    {
      if blocklen != 0 {
        BlockReply(pos, first, second);
      } else {
        EndOfData();
      }
    }

    method BlockReply(pos: int, first: Write, second: Write)
      requires Valid()
      modifies this`mvpState, this`position, this`retryZero, this`log
      ensures Valid() && retryZero == 0 && position == pos
      ensures var goes := Goes(old(mvpState), isStopping, first, second);
              && mvpState == (if goes && old(mvpState) == StepPending then StepSeek else old(mvpState))
              && (goes && mvpState == StepOn ==> log == old(log) + [Step(direction != 0)])
              && (!(goes && mvpState == StepOn) ==> log == old(log))
    {
      retryZero, position := 0, pos;
      if isStopping != Stopped {
        QueueData(first, second);
      }
    }

    method Arrive(stepped: bool)
      requires Valid()
      modifies this`mvpState, this`log
      ensures Valid() && mvpState == Arrived(old(mvpState), stepped)
      ensures stepped && old(mvpState) == SeekToPlay ==> log == old(log) + [Leave]
      ensures !(stepped && old(mvpState) == SeekToPlay) ==> log == old(log)
    {
      hide After;
      if stepped {
        if mvpState == StepSeek {
          mvpState := StepOn;
        } else if mvpState == SeekToPlay {
          Become(Running);
        }
      }
      if mvpState == SkipReplayOk || mvpState == Percent {
        Become(Running);
      }
      if mvpState == PercentRunning {
        Become(Percent);
      }
    }

    method EndOfData()
      requires Valid()
      modifies this`mvpState, this`position, this`retryZero, this`log
      ensures Valid()
      ensures position == if old(position) < length then length else old(position)
      ensures var again := old(mvpState) == Running && old(retryZero) == 0 && mediatype == Video && position != length;
              && retryZero == (if again then 1 else old(retryZero))
              && mvpState == (if !again && (old(mvpState) == Running || old(mvpState) == StepOn) then StopPending else old(mvpState))
      ensures old(mvpState) == StepOn ==> log == old(log) + [Leave]
      ensures old(mvpState) != StepOn ==> log == old(log)
    {
      if position < length {
        position := length;
      }
      if retryZero == 0 && mvpState == Running && mediatype == Video && position != length {
        retryZero := retryZero + 1;
      } else if mvpState == Running || mvpState == StepOn {
        Become(StopPending);
      }
    }

    static ghost predicate AwaitsSeek(s: State) {
      s == SeekToPlay || s == SkipReplayOk || s == PercentRunning
    }

    /** A seek reply sends a step exactly while stepping; what waited for it runs again. */
    method SeekReply()
      requires Valid()
      modifies this`mvpState, this`log
      ensures Valid()
      ensures mvpState == if old(View()).Stepping? then StepSeek
                          else if AwaitsSeek(old(mvpState)) then Running else old(mvpState)
      ensures log == old(log) + if old(View()).Stepping? then [Step(direction != 0)]
                                else if old(mvpState) == SeekToPlay then [Leave]
                                else []
    {
      hide After;
      if mvpState in {StepPending, StepSeek, StepOn} {
        SendStep();
        mvpState := StepSeek;
      } else if mvpState in {SeekToPlay, SkipReplayOk, PercentRunning} {
        Become(Running);
      }
    }

    /** A film that already made way for a live one is not set back. */
    ghost predicate StaysLive(osdVisible: bool)
      reads this
    {
      mvpState == Live && mediatype == Video && (!osdVisible || lastKey == KeyStop || extensions == 2)
    }

    method StopReply(osdVisible: bool)
      requires Valid()
      modifies this`mvpState, this`isStopping, this`mediatype, this`log
      ensures Valid() && mediatype == NoMedia && isStopping == NotStopping
      ensures mvpState == if old(StaysLive(osdVisible)) then Live else Running
      ensures log == old(log) + if old(InTrickPlay()) then [Leave] else []
    {
      if osdVisible && lastKey != KeyStop && extensions != 2 {
        mediatype := NoMedia;
      }
      if mediatype != Video || mvpState != Live {
        Become(Running);
      }
      mediatype := NoMedia;
      isStopping := NotStopping;
    }

    /** `media_queue_data`: two tries to write the block out. */
    method QueueData(first: Write, second: Write)
      requires Valid()
      modifies this`mvpState, this`log
      ensures Valid()
      ensures var done := Goes(old(mvpState), isStopping, first, second);
              && mvpState == (if done && old(mvpState) == StepPending then StepSeek else old(mvpState))
              && log == old(log) + if done && mvpState == StepOn then [Step(direction != 0)] else []
    {
      var live := mvpState == Live;
      if live || first == All || (first == Part && isStopping != NotStopping) {
        BlockDone();
      } else if first == Part && (second == All || (second == Part && isStopping != NotStopping)) {
        BlockDone();
      }
    }

    method BlockDone()
      requires Valid()
      modifies this`mvpState, this`log
      ensures Valid()
      ensures mvpState == if old(mvpState) == StepPending && isStopping == NotStopping then StepSeek else old(mvpState)
      ensures log == old(log) + if mvpState == StepOn && isStopping == NotStopping then [Step(direction != 0)] else []
    {
      if isStopping == NotStopping {
        if mvpState == StepPending {
          mvpState := StepSeek;
        } else if mvpState == StepOn {
          SendStep();
        }
      }
    }

    /** `mvp_timer_callback` when the answer did not come in time, and the resets by
        the user and at the start. */
    method Reset(timeout: bool)
      requires Valid()
      modifies this`mvpState, this`isStopping, this`paused, this`log
      ensures Valid() && mvpState == Running
      ensures isStopping == (if timeout then NotStopping else old(isStopping)) && paused == (old(paused) && timeout)
      ensures log == old(log) + if old(InTrickPlay()) then [Leave] else []
    {
      Become(Running);
      if timeout {
        isStopping := NotStopping;
      } else {
        paused := false;
      }
    }

    /** Stepping with nothing stopping: each step reply that is written out sends the next
        request, in the direction of the key. */
    method KeepStepping(replies: seq<Reply>)
      requires Valid() && (mvpState == StepSeek || mvpState == StepOn) && isStopping == NotStopping
      requires forall i :: 0 <= i < |replies| ==> BringsStep(replies[i])
      modifies this
      ensures Valid() && isStopping == NotStopping && direction == old(direction)
      ensures mediatype == old(mediatype) && paused == old(paused)
      ensures log == old(log) + Repeated(Step(direction != 0), |replies|)
      ensures mvpState == if replies == [] then old(mvpState) else StepOn
    {
      hide Valid, After, GrewBy;
      var i := 0;
      ghost var n, before := Step(direction != 0), log;
      OneMoreOf(n, 0);
      assert before + [] == before;
      while i < |replies|
        invariant 0 <= i <= |replies| && Valid() && isStopping == NotStopping && direction == old(direction)
        invariant mediatype == old(mediatype) && paused == old(paused)
        invariant log == before + Repeated(n, i)
        invariant mvpState == if i == 0 then old(mvpState) else StepOn
      {
        HandleReply(replies[i]);
        OneMoreOf(n, i);
        assert before + Repeated(n, i) + [n] == before + (Repeated(n, i) + [n]);
        i := i + 1;
      }
    }

    /** Blocks of the stream that come after the key send nothing. */
    method TakeBlocks(blocks: seq<Reply>)
      requires Valid() && (mvpState == StepPending || mvpState == StepSeek) && isStopping == NotStopping
      requires forall i :: 0 <= i < |blocks| ==> BringsBlock(blocks[i])
      modifies this
      ensures Valid() && isStopping == NotStopping && direction == old(direction)
      ensures mediatype == old(mediatype) && paused == old(paused)
      ensures log == old(log) && (mvpState == StepPending || mvpState == StepSeek)
    {
      hide Valid, After, GrewBy;
      var i := 0;
      while i < |blocks|
        invariant 0 <= i <= |blocks| && Valid() && isStopping == NotStopping && direction == old(direction)
        invariant mediatype == old(mediatype) && paused == old(paused)
        invariant log == old(log) && (mvpState == StepPending || mvpState == StepSeek)
      {
        HandleReply(blocks[i]);
        i := i + 1;
      }
    }

    /** Trick play from its key on: the seek reply sends the first step request and every
        step reply the next one, all in the direction of the key. */
    method Shuttle(forward: bool, blocks: seq<Reply>, replies: seq<Reply>)
      requires Valid() && mvpState == Running && isStopping == NotStopping
      requires mediatype == Video && length > 0 && scaleMode == 0
      requires forall i :: 0 <= i < |blocks| ==> BringsBlock(blocks[i])
      requires forall i :: 0 <= i < |replies| ==> BringsStep(replies[i])
      modifies this
      ensures Valid() && isStopping == NotStopping && direction == (if forward then 1 else 0)
      ensures mediatype == Video && paused == old(paused)
      ensures log == old(log) + [Start(forward)] + Repeated(Step(forward), 1 + |replies|)
      ensures mvpState == if replies == [] then StepSeek else StepOn
    {
      hide Valid, After, GrewBy;
      RemoteKey(if forward then KeyFfwd else KeyRewind);
      TakeBlocks(blocks);
      HandleReply(Seek);
      KeepStepping(replies);
      FirstAndMore(old(log) + [Start(forward)], Step(forward), |replies|);
    }

    /** The play key ends trick play: its answer sends one step more, and what comes back
        lets the stream run again. */
    method ShuttleAndPlay(forward: bool, blocks: seq<Reply>, replies: seq<Reply>, len: int, last: Reply)
      requires Valid() && mvpState == Running && isStopping == NotStopping && !paused
      requires mediatype == Video && length > 0 && scaleMode == 0
      requires forall i :: 0 <= i < |blocks| ==> BringsBlock(blocks[i])
      requires forall i :: 0 <= i < |replies| ==> BringsStep(replies[i])
      requires last.Seek? || BringsStep(last)
      modifies this
      ensures Valid() && mvpState == Running
      ensures log == old(log) + [Start(forward)] + Repeated(Step(forward), 1 + |replies|)
                     + [Play] + [Step(forward)] + [Leave]
    {
      hide Valid, After, GrewBy;
      Shuttle(forward, blocks, replies);
      RemoteKey(KeyPlay);
      HandleRdc(RdcPlay(0, len));
      HandleReply(last);
    }

    /** One event: at most one step request is sent, only for a message that may ask for
        one, and trick play is started only by its keys, each in its own direction. */
    method Handle(e: Event)
      requires Valid()
      modifies this
      ensures Valid()
      ensures Steps(log) <= old(Steps(log)) + if MayAsk(e) then 1 else 0
      ensures Directions(log) == old(Directions(log))
              || Directions(log) == old(Directions(log)) + JumpKey(e)
      ensures IsStepReply(e) && old(mvpState) in {StepSeek, StepOn} && old(isStopping) == NotStopping ==>
                && mvpState == StepOn && isStopping == NotStopping && direction == old(direction)
                && log == old(log) + [Step(direction != 0)]
    {
      hide After, Valid, GrewBy, Steps, Directions;
      match e {
        case Pressed(key) =>
          assert log + [] == log;
          RemoteKey(key);
          if log != old(log) {
            OneNote(old(log), old(NotesOfKey(key))[0]);
          }
        case Command(msg) =>
          HandleRdc(msg);
          Grown(old(log), log, msg.RdcPlay?);
        case Replied(reply) =>
          HandleReply(reply);
          Grown(old(log), log, reply.Data? || reply.Seek?);
        case Timeout =>
          Reset(true);
          Grown(old(log), log, false);
        case UserReset =>
          Reset(false);
          Grown(old(log), log, false);
        case Display(state, osdVisible) =>
          // `SetDisplayState`
          if state == 0 && osdVisible == 0 {
            isStopping := NotStopping;
          }
        case Settings(scale, ext, pausedNow) =>
          scaleMode, extensions, paused := scale, ext, pausedNow;
      }
    }

    /** Any interleaving of the handlers keeps the protocol.  Every step request has the
        direction of the start before it, the starts are among the jump keys pressed, in
        their order, and there are no more requests than messages that may ask for one. */
    method Run(events: seq<Event>)
      requires Valid()
      modifies this
      ensures Valid() && After(log) != Broken
      ensures forall i :: 0 <= i < |log| && log[i].Step? ==> DirectedByKey(log, i)
      ensures Among(Directions(log), old(Directions(log)) + JumpKeys(events))
      ensures Steps(log) <= old(Steps(log)) + Asking(events)
      ensures old(mvpState) in {StepSeek, StepOn} && old(isStopping) == NotStopping && AllStepReplies(events) ==>
                && log == old(log) + Repeated(Step(old(direction) != 0), |events|)
                && mvpState == (if events == [] then old(mvpState) else StepOn)
    {
      hide After, Valid, Among, Directions, Steps, MayAsk, JumpKey, IsStepReply;
      var i := 0;
      ghost var steady := mvpState in {StepSeek, StepOn} && isStopping == NotStopping && AllStepReplies(events);
      ghost var n, start := Step(direction != 0), log;
      OneMoreOf(n, 0);
      assert start + [] == start;
      ghost var before := Directions(log);
      AmongItself(before);
      assert before + [] == before;
      while i < |events|
        invariant 0 <= i <= |events| && Valid()
        invariant Among(Directions(log), before + JumpKeys(events[..i]))
        invariant Steps(log) <= old(Steps(log)) + Asking(events[..i])
        invariant steady ==>
                    && isStopping == NotStopping && direction == old(direction)
                    && log == start + Repeated(n, i)
                    && mvpState == (if i == 0 then old(mvpState) else StepOn)
      {
        assert events[..i + 1][..i] == events[..i];
        ghost var keys, key := JumpKeys(events[..i]), JumpKey(events[i]);
        ghost var directions := Directions(log);
        Handle(events[i]);
        assert before + keys + key == before + (keys + key);
        OneMoreOf(n, i);
        assert start + Repeated(n, i) + [n] == start + (Repeated(n, i) + [n]);
        AmongOrLeftOut(directions, Directions(log), before + keys, key);
        i := i + 1;
      }
      assert events[..i] == events;
      Kept();
      forall k | 0 <= k < |log| && log[k].Step? ensures DirectedByKey(log, k) {
        StepHasKeyDirection(log, k);
      }
    }

    lemma Kept()
      requires Valid()
      ensures After(log) != Broken
    {
    }
  }

  ghost predicate IsStepReply(e: Event) {
    e.Replied? && BringsStep(e.reply)
  }

  ghost predicate AllStepReplies(events: seq<Event>) {
    forall i :: 0 <= i < |events| ==> IsStepReply(events[i])
  }

  /** The direction of a key that starts trick play. */
  ghost function JumpKey(e: Event): (k: seq<bool>)
    ensures |k| <= 1
  {
    if e == Pressed(KeyFfwd) then [true] else if e == Pressed(KeyRewind) then [false] else []
  }

  ghost function JumpKeys(events: seq<Event>): seq<bool> {
    if events == [] then [] else JumpKeys(events[..|events| - 1]) + JumpKey(events[|events| - 1])
  }

  /** A message that may ask for a step: data, the answer to a seek, a play command. */
  ghost predicate MayAsk(e: Event) {
    || (e.Command? && e.msg.RdcPlay?)
    || (e.Replied? && (e.reply.Data? || e.reply.Seek?))
  }

  ghost function Asking(events: seq<Event>): nat {
    if events == [] then 0
    else Asking(events[..|events| - 1]) + if MayAsk(events[|events| - 1]) then 1 else 0
  }

  datatype Event = Pressed(key: Key) | Command(msg: Rdc) | Replied(reply: Reply) | Timeout | UserReset
                 | Display(state: int, osdVisible: int) | Settings(scale: int, ext: int, pausedNow: bool)
}
