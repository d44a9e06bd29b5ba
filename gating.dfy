/**
 * The gate every update passes before either conversation sees it
 * (`global_pre_processor`, registered in handler group -1): the
 * maintenance flag, the block check that fails open, and the admin
 * command that writes the flag.
 */
module Gating {
  import opened Wrappers
  import opened PyStr

  /** What reading the `maintenance_mode` flag gives. */
  datatype FlagRead = Absent | Value(v: string) | ConnectionFailed | OtherFailure

  /** What `get_maintenance_status` hands back, or that an exception escaped it. */
  datatype StatusLookup = Status(status: Option<string>) | Raised

  /** `user_id in admin_ids` on the configured list. */
  predicate IsAdmin(userId: int, admins: seq<int>)
  {
    userId in admins
  }

  /**
   * `get_maintenance_status(user_id, admin_ids)`. Admins never see
   * maintenance; an absent flag, the legacy `'false'` and a connection
   * failure read as live; the legacy `'true'` reads as stealth; any other
   * value is returned as it is. Only a connection failure is caught.
   */
  function MaintenanceStatus(userId: int, admins: seq<int>, flag: FlagRead): (r: StatusLookup)
    ensures IsAdmin(userId, admins) ==> r == Status(None)
    ensures r == Raised <==> !IsAdmin(userId, admins) && flag == OtherFailure
    ensures r == Status(Some("stealth")) <==>
              !IsAdmin(userId, admins) && (flag == Value("true") || flag == Value("stealth"))
    ensures !IsAdmin(userId, admins) && flag.Value? && flag.v != "false" && flag.v != "true" ==>
              r == Status(Some(flag.v))
    ensures flag.Absent? || flag.ConnectionFailed? || flag == Value("false") ==> r == Status(None)
  {
    if IsAdmin(userId, admins) then Status(None)
    else
      match flag
      case Absent => Status(None)
      case ConnectionFailed => Status(None)
      case OtherFailure => Raised
      case Value(mode) =>
        if mode == "false" then Status(None)
        else if mode == "true" then Status(Some("stealth"))
        else Status(Some(mode))
  }

  /**
   * What the backend's user-status lookup gives: the `except` path, no
   * answer (the client wrapper yields `None` on any failure), or an answer
   * whose `is_blocked` is truthy or not.
   */
  datatype BlockLookup = LookupRaised | NoAnswer | Answer(isBlocked: bool)

  /**
   * `pre_process_blocked_user`: updates without a user and admins are
   * allowed, a failed or empty lookup allows, and only a truthy
   * `is_blocked` blocks.
   */
  function IsBlocked(user: Option<int>, admins: seq<int>, lookup: BlockLookup): (r: bool)
  {
    if user.None? then false
    else if IsAdmin(user.value, admins) then false
    else
      match lookup
      case LookupRaised => false
      case NoAnswer => false
      case Answer(b) => b
  }

  lemma BlockCheckFailsOpen(user: Option<int>, admins: seq<int>, lookup: BlockLookup)
    ensures IsBlocked(user, admins, lookup) <==>
              user.Some? && !IsAdmin(user.value, admins) && lookup == Answer(true)
  {
  }

  /**
   * The fate of an update at the gate. `PassAfterError` is an exception
   * escaping the pre-processor: no error handler is registered, so the
   * application logs it and still runs the later handler groups.
   */
  datatype Gate = Pass | SilentStop | ReplyAndStop(text: string) | PassAfterError

  /** Whether the conversations of group 0 get to see the update. */
  predicate LetsThrough(g: Gate)
  {
    g.Pass? || g.PassAfterError?
  }

  /**
   * `global_pre_processor`: the maintenance check for a truthy user id,
   * stopping silently in stealth mode and after one reply for any other
   * truthy status; then the block check.
   */
  function PreProcess(user: Option<int>, admins: seq<int>, flag: FlagRead, lookup: BlockLookup): Gate
  {
    var status := if user.Some? && user.value != 0 then MaintenanceStatus(user.value, admins, flag) else Status(None);
    var afterMaintenance := if IsBlocked(user, admins, lookup) then SilentStop else Pass;
    match status
    case Raised => PassAfterError
    case Status(None) => afterMaintenance
    case Status(Some(s)) =>
      if s == "stealth" then SilentStop
      else if s != "" then ReplyAndStop(s)
      else afterMaintenance
  }

  /** The maintenance check applies: a truthy user id that is not an admin's. */
  predicate MaintenanceApplies(user: Option<int>, admins: seq<int>)
  {
    user.Some? && user.value != 0 && !IsAdmin(user.value, admins)
  }

  /** A flag value that the gate turns into a silent stop. */
  predicate StealthValue(v: string)
  {
    v == "stealth" || v == "true"
  }

  /** A flag value that the gate turns into a reply with that value. */
  predicate MessageValue(v: string)
  {
    v != "" && v != "false" && !StealthValue(v)
  }

  /**
   * The gate's decision, case by case: a stealth flag stops silently, a
   * message flag replies with the stored text, an unexpected read error lets
   * the update through, and otherwise only a blocked user is stopped.
   */
  lemma GateCases(user: Option<int>, admins: seq<int>, flag: FlagRead, lookup: BlockLookup)
    ensures var g := PreProcess(user, admins, flag, lookup);
      var applies := MaintenanceApplies(user, admins);
      var maintains := applies && flag.Value? && (StealthValue(flag.v) || MessageValue(flag.v));
      && (g == PassAfterError <==> applies && flag == OtherFailure)
      && (g.ReplyAndStop? <==> applies && flag.Value? && MessageValue(flag.v))
      && (g.ReplyAndStop? ==> g.text == flag.v)
      && (g == SilentStop <==>
            (applies && flag.Value? && StealthValue(flag.v))
            || (!maintains && !(applies && flag == OtherFailure) && IsBlocked(user, admins, lookup)))
  {
  }

  /** Admins are never stopped, whatever the flag and the lookup say. */
  lemma AdminsAlwaysPass(userId: int, admins: seq<int>, flag: FlagRead, lookup: BlockLookup)
    requires IsAdmin(userId, admins)
    ensures PreProcess(Some(userId), admins, flag, lookup) == Pass
  {
  }

  /** Neither an unreachable flag store nor a failed lookup stops anyone. */
  lemma GateFailsOpen(user: Option<int>, admins: seq<int>, lookup: BlockLookup)
    requires lookup != Answer(true)
    ensures PreProcess(user, admins, ConnectionFailed, lookup) == Pass
  {
  }

  /** Updates without a user skip both checks. */
  lemma NoUserPasses(admins: seq<int>, flag: FlagRead, lookup: BlockLookup)
    ensures PreProcess(None, admins, flag, lookup) == Pass
  {
  }

  // ---------------------------------------------------------------------------
  // /maintenance
  // ---------------------------------------------------------------------------

  /** The write the command makes to the flag. */
  datatype FlagWrite = DeleteFlag | SetFlag(v: string)

  /** How the status report (no arguments) describes the current flag. */
  datatype ReportMode = LiveMode | StealthMode | MessageMode(text: string)

  datatype CommandResult = Ignored | Report(mode: ReportMode) | Write(write: FlagWrite) | UnknownOption

  /**
   * The status report as the source words it: an absent or empty flag is
   * live, `'stealth'` is stealth, and any other value, the legacy `'false'`
   * and `'true'` included, is reported as a message.
   */
  function StatusReportAsWritten(current: Option<string>): (r: ReportMode)
  {
    if current.None? || current.value == "" then LiveMode
    else if current.value == "stealth" then StealthMode
    else MessageMode(current.value)
  }

  /** The status report read the way the gate reads the flag. */
  function StatusReport(current: Option<string>): (r: ReportMode)
  {
    if current.None? || current.value == "" || current.value == "false" then LiveMode
    else if StealthValue(current.value) then StealthMode
    else MessageMode(current.value)
  }

  /**
   * `maintenance_command` around a given status report: non-admins are
   * ignored; without arguments the report is given; `off` deletes the flag,
   * `on` alone stores `'stealth'` and `on` with words stores the words
   * joined by single spaces. The sub-command is compared in lower case.
   */
  function CommandWithReport(user: Option<int>, admins: seq<int>, args: seq<string>, report: ReportMode): CommandResult
  {
    if user.None? || !IsAdmin(user.value, admins) then Ignored
    else if args == [] then Report(report)
    else
      var command := Lower(args[0]);
      if command == "off" then Write(DeleteFlag)
      else if command == "on" then
        if |args| == 1 then Write(SetFlag("stealth")) else Write(SetFlag(Join(args[1..], ' ')))
      else UnknownOption
  }

  /** `maintenance_command` as written, with the source's status report. */
  function MaintenanceCommand(user: Option<int>, admins: seq<int>, args: seq<string>, current: Option<string>): CommandResult
  {
    CommandWithReport(user, admins, args, StatusReportAsWritten(current))
  }

  /** `maintenance_command` with the status report read the way the gate reads the flag. */
  function CorrectedMaintenanceCommand(user: Option<int>, admins: seq<int>, args: seq<string>, current: Option<string>): CommandResult
  {
    CommandWithReport(user, admins, args, StatusReport(current))
  }

  /**
   * What `/maintenance` does, case by case: only an admin is answered;
   * without arguments the report says live exactly for an absent or empty
   * flag, stealth exactly for `'stealth'`, and otherwise shows the stored
   * text; `off` and `on` (in any case) write the flag, and any other
   * sub-command is refused.
   */
  lemma MaintenanceCommandCases(user: Option<int>, admins: seq<int>, args: seq<string>, current: Option<string>)
    ensures var r := MaintenanceCommand(user, admins, args, current);
      var admin := user.Some? && IsAdmin(user.value, admins);
      && (r == Ignored <==> !admin)
      && (r.Report? <==> admin && args == [])
      && (r.Report? ==>
            && (r.mode == LiveMode <==> current.None? || current.value == "")
            && (r.mode == StealthMode <==> current == Some("stealth"))
            && (r.mode.MessageMode? ==> current == Some(r.mode.text)))
      && (r.Write? <==> admin && args != [] && Lower(args[0]) in {"off", "on"})
      && (r == Write(DeleteFlag) <==> admin && args != [] && Lower(args[0]) == "off")
      && (r == UnknownOption <==> admin && args != [] && Lower(args[0]) !in {"off", "on"})
  {
  }

  /** The flag as it reads after a write. */
  function Applied(w: FlagWrite): FlagRead
  {
    match w
    case DeleteFlag => Absent
    case SetFlag(v) => Value(v)
  }

  lemma JoinStartsWithFirst(parts: seq<string>, c: char)
    requires parts != []
    ensures parts[0] <= Join(parts, c)
  {
  }

  /**
   * What a non-admin user meets after an admin's command: `off` lets them
   * through (unless blocked), `on` stops them silently, and `on <words>`
   * replies with exactly the words, unless those words spell one of the
   * flag's reserved values.
   */
  lemma CommandThenGate(admin: int, admins: seq<int>, args: seq<string>, current: Option<string>,
                        user: int, lookup: BlockLookup)
    requires IsAdmin(admin, admins) && user != 0 && !IsAdmin(user, admins)
    requires forall k :: 0 <= k < |args| ==> args[k] != ""
    requires MaintenanceCommand(Some(admin), admins, args, current).Write?
    ensures var w := MaintenanceCommand(Some(admin), admins, args, current).write;
      var g := PreProcess(Some(user), admins, Applied(w), lookup);
      && (Lower(args[0]) == "off" ==> w == DeleteFlag && g == (if lookup == Answer(true) then SilentStop else Pass))
      && (Lower(args[0]) == "on" && |args| == 1 ==> g == SilentStop)
      && (Lower(args[0]) == "on" && |args| > 1 ==>
            var text := Join(args[1..], ' ');
            text != "" && (MessageValue(text) ==> g == ReplyAndStop(text)))
  {
    if Lower(args[0]) == "on" && |args| > 1 {
      JoinStartsWithFirst(args[1..], ' ');
      assert args[1..][0] == args[1];
    }
  }

  /**
   * The status report tells an admin exactly what a non-admin, unblocked
   * user meets: live means the update passes, stealth a silent stop, and a
   * message the reply with that message.
   */
  lemma StatusReportMatchesGate(admin: int, current: Option<string>, user: int, admins: seq<int>)
    requires IsAdmin(admin, admins) && user != 0 && !IsAdmin(user, admins)
    ensures var g := PreProcess(Some(user), admins, if current.None? then Absent else Value(current.value), NoAnswer);
      var r := CorrectedMaintenanceCommand(Some(admin), admins, [], current);
      && r == Report(StatusReport(current))
      && (r.mode == LiveMode <==> g == Pass)
      && (r.mode == StealthMode <==> g == SilentStop)
      && (forall t :: r.mode == MessageMode(t) <==> g == ReplyAndStop(t))
  {
  }

  /**
   * As written, the report calls the legacy `'false'` flag a message
   * although the gate lets every update through, and the legacy `'true'`
   * a message although the gate stops silently.
   */
  lemma LegacyFlagsMisreported(admin: int, user: int, admins: seq<int>)
    requires IsAdmin(admin, admins) && user != 0 && !IsAdmin(user, admins)
    ensures MaintenanceCommand(Some(admin), admins, [], Some("false")) == Report(MessageMode("false"))
    ensures PreProcess(Some(user), admins, Value("false"), NoAnswer) == Pass
    ensures MaintenanceCommand(Some(admin), admins, [], Some("true")) == Report(MessageMode("true"))
    ensures PreProcess(Some(user), admins, Value("true"), NoAnswer) == SilentStop
  {
  }
}
