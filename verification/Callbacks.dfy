/** What the pre-operation callbacks decide: whether an operation goes on to the file
    system or is completed by the filter, and with which status.
    (FileGuardCore/Operations.c) */
module Callbacks {
  import opened FileGuard
  import opened RuleHistory

  /** The value a pre-operation callback returns to the filter manager. */
  datatype PreopStatus = WithCallback | NoCallback | Complete

  /** What the callback left in the I/O status block. */
  datatype IoStatus = Untouched | AccessDenied | MediaWriteProtected | FailedWith(status: Status)

  datatype Decision = Decision(result: PreopStatus, io: IoStatus)

  /** The status a rule refuses an operation with; codes outside the two majors refuse
      nothing. */
  function Refusal(code: RuleCode): IoStatus {
    if code.major == RULE_MAJOR_ACCESS_DENIED then AccessDenied
    else if code.major == RULE_MAJOR_READONLY then MediaWriteProtected
    else Untouched
  }

  predicate Monitored(code: RuleCode) {
    code.minor == RULE_MINOR_MONITORED
  }

  // ---- Create ----

  datatype Disposition = Supersede | OpenExisting | Create | OpenIf | Overwrite | OverwriteIf

  /** Everything around a create that the driver does not control: the name query, the
      recorder, the create disposition, the probe for an existing file and the allocation
      of the completion context. */
  datatype CreateInputs = CreateInputs(
    volumeOpen: bool,
    name: Status,
    record: Status,
    disposition: Disposition,
    probe: Status,
    fileExists: bool,
    allocate: Status)

  /** The dispositions a readonly rule is written to refuse. */
  predicate Tested(d: Disposition, fileExists: bool) {
    d == Create || d == Overwrite || d == OverwriteIf || (d == OpenIf && !fileExists)
  }

  /** The first step that goes wrong on a create with a matching rule of this code. */
  function CreateFailure(code: RuleCode, x: CreateInputs): Status {
    if x.record != Success then x.record
    else if code.major == RULE_MAJOR_ACCESS_DENIED then Success
    else if code.major == RULE_MAJOR_READONLY && x.disposition == OpenIf && x.probe != Success then x.probe
    else if code.major == RULE_MAJOR_READONLY && Tested(x.disposition, x.fileExists) then Success
    else x.allocate
  }

  /** The outcome of a create whose name matched the given rule, if any. */
  function CreateDecision(matched: Option<RuleCode>, x: CreateInputs): Decision {
    if x.volumeOpen then Decision(NoCallback, Untouched)
    else if x.name != Success then Decision(Complete, FailedWith(x.name))
    else match matched
      case None => Decision(NoCallback, Untouched)
      case Some(code) =>
        if CreateFailure(code, x) != Success then Decision(Complete, FailedWith(CreateFailure(code, x)))
        else if code.major == RULE_MAJOR_ACCESS_DENIED then Decision(Complete, AccessDenied)
        else if code.major == RULE_MAJOR_READONLY && Tested(x.disposition, x.fileExists) then
          Decision(Complete, MediaWriteProtected)
        else Decision(WithCallback, Untouched)
  }

  /** FgcPreCreateCallback, its decision only: what every create gets, from its inputs. */
  method PreCreate(matched: Option<RuleCode>, x: CreateInputs) returns (d: Decision)
    ensures d == CreateDecision(matched, x)
    ensures x.volumeOpen ==> d == Decision(NoCallback, Untouched)
    ensures !x.volumeOpen && x.name != Success ==> d == Decision(Complete, FailedWith(x.name))
    ensures !x.volumeOpen && x.name == Success && matched == None ==> d == Decision(NoCallback, Untouched)
    ensures !x.volumeOpen && x.name == Success && matched.Some? && x.record != Success ==>
              d == Decision(Complete, FailedWith(x.record))
    ensures !x.volumeOpen && x.name == Success && matched == Some(RuleCode(1, 1)) && x.record == Success ==>
              d == Decision(Complete, AccessDenied)
    ensures !x.volumeOpen && x.name == Success && matched == Some(RuleCode(1, 2)) && x.record == Success ==>
              match x.disposition
              case Supersede =>
                d == if x.allocate == Success then Decision(WithCallback, Untouched)
                     else Decision(Complete, FailedWith(x.allocate))
              case OpenExisting =>
                d == if x.allocate == Success then Decision(WithCallback, Untouched)
                     else Decision(Complete, FailedWith(x.allocate))
              case OpenIf =>
                d == if x.probe != Success then Decision(Complete, FailedWith(x.probe))
                     else if !x.fileExists then Decision(Complete, MediaWriteProtected)
                     else if x.allocate == Success then Decision(WithCallback, Untouched)
                     else Decision(Complete, FailedWith(x.allocate))
              case Create => d == Decision(Complete, MediaWriteProtected)
              case Overwrite => d == Decision(Complete, MediaWriteProtected)
              case OverwriteIf => d == Decision(Complete, MediaWriteProtected)
  {
    var status, result, io := Success, WithCallback, Untouched;
    if x.volumeOpen {
      result := NoCallback;
    } else {
      status := x.name;
      if status == Success && matched.None? {
        result := NoCallback;
      } else if status == Success {
        var code := matched.value;
        status := x.record;
        if status == Success {
          if code.major == RULE_MAJOR_ACCESS_DENIED {
            io, result := AccessDenied, Complete;
          } else if code.major == RULE_MAJOR_READONLY {
            if x.disposition == Create || x.disposition == Overwrite || x.disposition == OverwriteIf {
              io, result := MediaWriteProtected, Complete;
            } else if x.disposition == OpenIf {
              status := x.probe;
              if status == Success && !x.fileExists {
                io, result := MediaWriteProtected, Complete;
              }
            }
          }
          if status == Success && result == WithCallback {
            status := x.allocate;
          }
        }
      }
    }
    if status != Success {
      io, result := FailedWith(status), Complete;
    }
    return Decision(result, io);
  }

  /** Only an open that a readonly rule lets through reaches post-create with a rule: an
      access-denied rule never gets into a completion context. */
  lemma OnlyReadonlyPassesCreate(code: RuleCode, x: CreateInputs)
    requires ValidRuleCode(code)
    ensures CreateDecision(Some(code), x).result == WithCallback ==> code.major == RULE_MAJOR_READONLY
    ensures CreateDecision(Some(code), x).result == WithCallback ==>
              !Tested(x.disposition, x.fileExists) && x.record == Success
  {
  }

  /** What a create that reaches the file system does to the file, by what its disposition
      means there. */
  datatype FileEffect = LeavesFile | CreatesFile | ReplacesFile | FailsThere

  function Effect(d: Disposition, there: bool): FileEffect {
    match d
    case Supersede => if there then ReplacesFile else CreatesFile
    case OpenExisting => if there then LeavesFile else FailsThere
    case Create => if there then FailsThere else CreatesFile
    case OpenIf => if there then LeavesFile else CreatesFile
    case Overwrite => if there then ReplacesFile else FailsThere
    case OverwriteIf => if there then ReplacesFile else CreatesFile
  }

  predicate ChangesFile(d: Disposition, there: bool) {
    Effect(d, there).CreatesFile? || Effect(d, there).ReplacesFile?
  }

  /** Readonly at create time: a create that a readonly rule does not complete itself creates
      or replaces the file exactly when it asks to supersede it. `there` says whether the
      file exists, which the probe answers truthfully. */
  lemma OnlySupersedeChanges(code: RuleCode, x: CreateInputs, there: bool)
    requires ValidRuleCode(code) && code.major == RULE_MAJOR_READONLY && !x.volumeOpen
    requires x.disposition == OpenIf ==> x.fileExists == there
    ensures CreateDecision(Some(code), x).result != Complete ==>
              (ChangesFile(x.disposition, there) <==> x.disposition == Supersede)
    ensures ChangesFile(x.disposition, there) && x.disposition != Supersede ==>
              CreateDecision(Some(code), x).result == Complete
  {
  }

  /** The failing family: superseding goes through under a readonly rule whenever the name
      query, the recording and the allocation succeed, and changes the file whether it is
      there or not. */
  lemma SupersedePasses(x: CreateInputs, there: bool)
    requires x.disposition == Supersede && !x.volumeOpen && x.name == Success && x.record == Success &&
             x.allocate == Success
    ensures CreateDecision(Some(RuleCode(RULE_MINOR_MONITORED, RULE_MAJOR_READONLY)), x).result == WithCallback
    ensures ChangesFile(x.disposition, there)
  {
  }

  // ---- After a create ----

  datatype ContextQuery = ContextFound | ContextMissing | ContextFailed

  datatype ContextSet = SetDone | AlreadySet | SetFailed

  /** What post-create meets: a drained operation, the result of the open, the lookup of a
      file context, and for a new one its allocation and publication. */
  datatype PostInputs = PostInputs(
    draining: bool,
    openOk: bool,
    query: ContextQuery,
    allocate: Status,
    publish: ContextSet)

  predicate Publishes(x: PostInputs) {
    !x.draining && x.openOk && x.query == ContextMissing && x.allocate == Success && x.publish == SetDone
  }

  /** The opens that post-create cancels: every drained one, and every successful one whose
      file neither has a context nor gets one from this open. */
  predicate Cancels(x: PostInputs) {
    x.draining || (x.openOk && x.query != ContextFound && !Publishes(x))
  }

  /** FgcPostCreateCallback, its outcome: the status it reports, whether it cancels the open,
      and whether it published a context. An open goes through under a matched rule only with
      a context on its file; one that lost the race for the context is cancelled although the
      file has one. */
  method PostCreate(x: PostInputs) returns (status: Status, cancelled: bool, published: bool)
    ensures published <==> Publishes(x)
    ensures cancelled <==> Cancels(x)
    ensures cancelled <==> status != Success
    ensures x.openOk && !cancelled ==> x.query == ContextFound || published
    ensures status == ContextAlreadyDefined && x.allocate != ContextAlreadyDefined ==>
              !x.draining && x.query == ContextMissing && x.publish == AlreadySet
    ensures x.draining ==> status == DeviceRemoved && cancelled && !published
    ensures !x.draining && !x.openOk ==> status == Success && !cancelled && !published
    ensures !x.draining && x.openOk ==>
              match x.query
              case ContextFound => status == Success && !cancelled && !published
              case ContextFailed => status == OtherFailure && cancelled && !published
              case ContextMissing =>
                if x.allocate != Success then status == x.allocate && cancelled && !published
                else match x.publish
                  case SetDone => status == Success && !cancelled && published
                  case AlreadySet => status == ContextAlreadyDefined && cancelled && !published
                  case SetFailed => status == OtherFailure && cancelled && !published
  {
    status, cancelled, published := Success, false, false;
    if x.draining {
      status := DeviceRemoved;
    } else if x.openOk {
      if x.query == ContextFailed {
        status := OtherFailure;
      } else if x.query == ContextMissing {
        status := x.allocate;
        if status == Success {
          if x.publish == SetFailed {
            status := OtherFailure;
          } else if x.publish == AlreadySet {
            status := ContextAlreadyDefined;
          } else {
            published := true;
          }
        }
      }
    }
    if status != Success {
      cancelled := true;
    }
  }

  // ---- Operations on an open file ----

  /** The operations the driver looks at, and the ones it lets pass. */
  datatype Operation = Write | Rename | ListedSetInformation | OtherSetInformation | ListedFsControl | OtherFsControl

  predicate Guarded(op: Operation) {
    op != OtherSetInformation && op != OtherFsControl
  }

  /** What FltGetFileContext found: a context and the code of the rule it carries, if any. */
  datatype ContextLookup = FoundContext(rule: Option<RuleCode>) | NoContext | LookupFailed(status: Status)

  /** The recorder's results, and for a rename the destination name query and the rule the
      destination matches. */
  datatype OperationInputs = OperationInputs(record: Status, destination: Status, matched: Option<RuleCode>,
                                             recordAgain: Status)

  /** The first failing step of a guarded operation under a rule. */
  function OperationFailure(op: Operation, code: RuleCode, x: OperationInputs): Status {
    if Monitored(code) && x.record != Success then x.record
    else if op != Rename then Success
    else if x.destination != Success then x.destination
    else if x.matched.Some? && Monitored(code) then x.recordAgain
    else Success
  }

  function RuleDecision(op: Operation, code: RuleCode, x: OperationInputs): Decision {
    var failure := OperationFailure(op, code, x);
    var own := Refusal(code);
    var target := if op == Rename && x.matched.Some? then Refusal(x.matched.value) else Untouched;
    if !Guarded(op) then Decision(NoCallback, Untouched)
    else if failure != Success then Decision(Complete, FailedWith(failure))
    else if target != Untouched then Decision(Complete, target)
    else if own != Untouched then Decision(Complete, own)
    else Decision(NoCallback, Untouched)
  }

  function OperationDecision(op: Operation, found: ContextLookup, x: OperationInputs): Decision {
    match found
    case LookupFailed(status) =>
      if status == Success then Decision(NoCallback, Untouched) else Decision(Complete, FailedWith(status))
    case NoContext => Decision(NoCallback, Untouched)
    case FoundContext(None) => Decision(NoCallback, Untouched)
    case FoundContext(Some(code)) => RuleDecision(op, code, x)
  }

  /** A valid rule in the file's context blocks every guarded operation, on every path:
      whatever the recorder, the destination query and the second lookup answer. */
  lemma RuleBlocks(op: Operation, code: RuleCode, x: OperationInputs)
    requires ValidRuleCode(code)
    ensures OperationDecision(op, FoundContext(Some(code)), x).result == Complete <==> Guarded(op)
    ensures Guarded(op) <==> op == Write || op == Rename || op == ListedSetInformation || op == ListedFsControl
    ensures OperationDecision(op, FoundContext(Some(code)), x).result != WithCallback
  {
  }

  // FILE_INFORMATION_CLASS and the file-system control codes, as far as the callbacks tell
  // them apart.
  datatype InformationClass =
    | FileRenameInformation
    | FileRenameInformationEx
    | FileDispositionInformation
    | FileDispositionInformationEx
    | FileEndOfFileInformation
    | FileAllocationInformation
    | OtherInformation

  datatype FsControlCode =
    | FsctlSetSparse
    | FsctlSetReparsePoint
    | FsctlSetReparsePointEx
    | FsctlDeleteReparsePoint
    | OtherFsctl

  function SetInformationOf(c: InformationClass): Operation {
    match c
    case FileRenameInformation => Rename
    case FileRenameInformationEx => Rename
    case OtherInformation => OtherSetInformation
    case _ => ListedSetInformation
  }

  function FsControlOf(c: FsControlCode): Operation {
    if c == OtherFsctl then OtherFsControl else ListedFsControl
  }

  /** The switch on the major code that every callback contains. */
  method Refuse(code: RuleCode, result: PreopStatus, io: IoStatus) returns (newResult: PreopStatus, newIo: IoStatus)
    ensures newIo == if Refusal(code) == Untouched then io else Refusal(code)
    ensures newResult == if Refusal(code) == Untouched then result else Complete
  {
    newResult, newIo := result, io;
    if code.major == RULE_MAJOR_ACCESS_DENIED {
      newIo, newResult := AccessDenied, Complete;
    } else if code.major == RULE_MAJOR_READONLY {
      newIo, newResult := MediaWriteProtected, Complete;
    }
  }

  /** FgcPreWriteCallback. */
  method PreWrite(found: ContextLookup, x: OperationInputs) returns (d: Decision)
    ensures d == OperationDecision(Write, found, x)
    ensures found == NoContext || found == FoundContext(None) ==> d == Decision(NoCallback, Untouched)
    ensures found.LookupFailed? && found.status != Success ==> d == Decision(Complete, FailedWith(found.status))
    ensures found == FoundContext(Some(RuleCode(1, 1))) ==>
              d == Decision(Complete, if x.record == Success then AccessDenied else FailedWith(x.record))
    ensures found == FoundContext(Some(RuleCode(1, 2))) ==>
              d == Decision(Complete, if x.record == Success then MediaWriteProtected else FailedWith(x.record))
  {
    var status, result, io := Success, NoCallback, Untouched;
    if found.LookupFailed? {
      status := found.status;
    } else if found.FoundContext? && found.rule.Some? {
      var code := found.rule.value;
      if Monitored(code) {
        status := x.record;
      }
      if status == Success {
        result, io := Refuse(code, result, io);
      }
    }
    if status != Success {
      io, result := FailedWith(status), Complete;
    }
    return Decision(result, io);
  }

  /** FgcPreSetInformationCallback: a rename also looks up the destination name, and is refused
      as the destination's rule says before the file's own. */
  method PreSetInformation(c: InformationClass, found: ContextLookup, x: OperationInputs) returns (d: Decision)
    ensures d == OperationDecision(SetInformationOf(c), found, x)
    ensures found == NoContext || found == FoundContext(None) ==> d == Decision(NoCallback, Untouched)
    ensures found.LookupFailed? && found.status != Success ==> d == Decision(Complete, FailedWith(found.status))
    ensures found.FoundContext? && c == OtherInformation ==> d == Decision(NoCallback, Untouched)
    ensures forall code :: found == FoundContext(Some(code)) && (code == RuleCode(1, 1) || code == RuleCode(1, 2)) ==>
              var own := if code.major == 1 then AccessDenied else MediaWriteProtected;
              var rename := if x.record != Success then FailedWith(x.record)
                            else if x.destination != Success then FailedWith(x.destination)
                            else if x.matched == None then own
                            else if x.recordAgain != Success then FailedWith(x.recordAgain)
                            else if x.matched.value.major == 1 then AccessDenied
                            else if x.matched.value.major == 2 then MediaWriteProtected
                            else own;
              match c
              case FileRenameInformation => d == Decision(Complete, rename)
              case FileRenameInformationEx => d == Decision(Complete, rename)
              case OtherInformation => d == Decision(NoCallback, Untouched)
              case _ => d == Decision(Complete, if x.record == Success then own else FailedWith(x.record))
  {
    var status, result, io := Success, NoCallback, Untouched;
    if found.LookupFailed? {
      status := found.status;
    } else if found.FoundContext? && found.rule.Some? {
      var code := found.rule.value;
      if c == FileRenameInformation || c == FileRenameInformationEx {
        if Monitored(code) {
          status := x.record;
        }
        if status == Success {
          result, io := Refuse(code, result, io);
          status := x.destination;
        }
        if status == Success && x.matched.Some? {
          if Monitored(code) {
            status := x.recordAgain;
          }
          if status == Success {
            result, io := Refuse(x.matched.value, result, io);
          }
        }
      } else if c != OtherInformation {
        if Monitored(code) {
          status := x.record;
        }
        if status == Success {
          result, io := Refuse(code, result, io);
        }
      }
    }
    if status != Success {
      io, result := FailedWith(status), Complete;
    }
    return Decision(result, io);
  }

  /** FgcPreFileSystemControlCallback: refuses before it records. */
  method PreFileSystemControl(c: FsControlCode, found: ContextLookup, x: OperationInputs) returns (d: Decision)
    ensures d == OperationDecision(FsControlOf(c), found, x)
    ensures found == NoContext || found == FoundContext(None) ==> d == Decision(NoCallback, Untouched)
    ensures found.LookupFailed? && found.status != Success ==> d == Decision(Complete, FailedWith(found.status))
    ensures found.FoundContext? && c == OtherFsctl ==> d == Decision(NoCallback, Untouched)
    ensures found == FoundContext(Some(RuleCode(1, 1))) && c != OtherFsctl ==>
              d == Decision(Complete, if x.record == Success then AccessDenied else FailedWith(x.record))
    ensures found == FoundContext(Some(RuleCode(1, 2))) && c != OtherFsctl ==>
              d == Decision(Complete, if x.record == Success then MediaWriteProtected else FailedWith(x.record))
  {
    var status, result, io := Success, NoCallback, Untouched;
    if found.LookupFailed? {
      status := found.status;
    } else if found.FoundContext? && found.rule.Some? {
      var code := found.rule.value;
      if c != OtherFsctl {
        result, io := Refuse(code, result, io);
        if Monitored(code) {
          status := x.record;
        }
      }
    }
    if status != Success {
      io, result := FailedWith(status), Complete;
    }
    return Decision(result, io);
  }
}
