/** Pure decision of the permission layer: what happens to a proposed intent in a given mode. Risk
    verdict and sensitive-file match are inputs. */
module PermissionChecker {

  datatype Mode = Plan | Code | Ask | Auto

  datatype RiskLevel = Safe | Moderate | Dangerous

  datatype IntentType =
    FileRead | FileCreate | FileEdit | FileDelete | FileRename | CommandRun | Search | Analyze | Other

  datatype GatedAction = Read | Write | Execute | Propose

  datatype Capabilities = Capabilities(
    canRead: bool,
    canWrite: bool,
    canExecute: bool,
    canPropose: bool,
    autoApproveSafe: bool)

  datatype Policy = Policy(
    requiredApprovals: int,
    safeAutoApproveSeconds: real,
    moderateAutoApproveSeconds: real,
    allowDangerousAutoApprove: bool,
    timeoutSeconds: real)

  /** The two configurable tables: one row per mode. */
  datatype Tables = Tables(rules: Mode -> Capabilities, policies: Mode -> Policy)

  /** The rules a gateway starts with, as far as decisions read them. */
  function DefaultRules(mode: Mode): Capabilities {
    match mode
    case Plan => Capabilities(true, false, false, true, false)
    case Code => Capabilities(true, true, true, true, false)
    case Ask => Capabilities(true, false, false, false, false)
    case Auto => Capabilities(true, true, true, true, true)
  }

  datatype Decision =
    | AutoApprove
    | AutoReject
    | HoldPending
    | RequireApproval(countdownSec: real, timeoutSec: real, requiredApprovers: int)

  function CanAutoApprove(mode: Mode, risk: RiskLevel, t: Tables): bool {
    if !t.rules(mode).autoApproveSafe then false
    else
      var policy := t.policies(mode);
      match risk
      case Safe => policy.safeAutoApproveSeconds > 0.0
      case Moderate => policy.moderateAutoApproveSeconds > 0.0
      case Dangerous => policy.allowDangerousAutoApprove
  }

  function GetAutoApproveCountdown(mode: Mode, risk: RiskLevel, t: Tables): real {
    if !CanAutoApprove(mode, risk, t) then 0.0
    else
      var policy := t.policies(mode);
      match risk
      case Safe => policy.safeAutoApproveSeconds
      case Moderate => policy.moderateAutoApproveSeconds
      case Dangerous => 0.0
  }

  function IntentGatedAction(kind: IntentType): GatedAction {
    match kind
    case FileRead | Search | Analyze => Read
    case CommandRun => Execute
    case FileCreate | FileEdit | FileDelete | FileRename | Other => Write
  }

  function Decide(mode: Mode, kind: IntentType, risk: RiskLevel, sensitive: bool, t: Tables): Decision {
    var cap, policy := t.rules(mode), t.policies(mode);
    var action := IntentGatedAction(kind);
    var manual := RequireApproval(0.0, policy.timeoutSeconds, policy.requiredApprovals);
    if !cap.canPropose then AutoReject
    else if action == Read && !cap.canRead then AutoReject
    else if action == Write && !cap.canWrite then AutoReject
    else if action == Execute && !cap.canExecute then AutoReject
    else if mode == Plan then HoldPending
    else if sensitive then manual
    else if risk == Dangerous then manual
    else if CanAutoApprove(mode, risk, t) then
      var countdown := GetAutoApproveCountdown(mode, risk, t);
      if countdown > 0.0 then manual.(countdownSec := countdown) else AutoApprove
    else manual
  }

  /** The mode lets the intent be proposed and its action be taken. */
  predicate Permitted(mode: Mode, kind: IntentType, t: Tables) {
    var cap := t.rules(mode);
    && cap.canPropose
    && match IntentGatedAction(kind)
       case Read => cap.canRead
       case Write => cap.canWrite
       case Execute => cap.canExecute
       case Propose => true
  }

  /** An intent that must never be approved by a timer. */
  predicate Critical(risk: RiskLevel, sensitive: bool) {
    sensitive || risk == Dangerous
  }

  /** For all tables nothing is approved on the spot; forbidden intents are rejected and only they are;
      outside plan mode every permitted intent needs the policy's number of approvers, and a countdown
      runs exactly for a non-critical intent in an auto-approving mode with a positive delay. */
  lemma DecideIsSound(mode: Mode, kind: IntentType, risk: RiskLevel, sensitive: bool, t: Tables)
    ensures
      var d := Decide(mode, kind, risk, sensitive, t);
      && !d.AutoApprove?
      && (d.AutoReject? <==> !Permitted(mode, kind, t))
      && (d.HoldPending? <==> Permitted(mode, kind, t) && mode == Plan)
      && (d.RequireApproval? ==>
            && d.requiredApprovers == t.policies(mode).requiredApprovals
            && d.timeoutSec == t.policies(mode).timeoutSeconds
            && (Critical(risk, sensitive) ==> d.countdownSec == 0.0)
            && (d.countdownSec > 0.0 <==> !Critical(risk, sensitive) && CanAutoApprove(mode, risk, t)))
  {
  }
}
