/** The records that the connector stores and logs (wxcd-proto/src/model.rs). Instants are integers. */
module Model {
  import opened Wrappers

  datatype SessionState = Creating | Idle | Running | WaitingApproval | Paused | Completed | Failed | Archived

  datatype FailureKind = MissingThread | UnreadableThread | ProbeUnavailable

  datatype SessionFailure = SessionFailure(kind: FailureKind, message: string, detectedAt: int)

  datatype LocalMirror = LocalMirror(installation: string, mirroredAt: int)

  datatype SessionRecord = SessionRecord(
    id: string,
    title: string,
    room: string,
    thread: string,
    overview: Option<string>,
    state: SessionState,
    lastCheckpoint: Option<string>,
    lastFinal: Option<string>,
    activeTurn: Option<string>,
    buffer: string,
    updatedAt: int,
    archived: bool,
    failure: Option<SessionFailure>,
    authority: Option<string>,
    mirror: Option<LocalMirror>)

  datatype ApprovalKind = CommandExecution | FileChange | Permissions

  datatype ApprovalDecision = Accept | AcceptForSession | Decline | Cancel

  datatype PendingApproval = PendingApproval(
    id: string,
    session: string,
    thread: string,
    kind: ApprovalKind,
    request: string,
    card: Option<string>,
    requestedAt: int)

  datatype BridgeEvent =
    | SessionCreated(session: SessionRecord)
    | SessionUpdated(session: SessionRecord)
    | SessionArchived(sessionId: string)
    | SessionPurged(sessionId: string)
    | ApprovalRequested(approval: PendingApproval)
    | ApprovalResolved(approvalId: string, sessionId: string, decision: ApprovalDecision)

  /** The two lists hold the values of two hash maps in whatever order the maps yielded them. */
  datatype BridgeSnapshot = BridgeSnapshot(
    createdAt: int,
    writer: Option<string>,
    sessions: seq<SessionRecord>,
    approvals: seq<PendingApproval>)

  type Sessions = map<string, SessionRecord>
  type Approvals = map<string, PendingApproval>

  predicate IsArchived(s: SessionRecord) {
    s.archived || s.state == Archived
  }

  /** Every map of sessions or approvals in the source is keyed by the record's own id. */
  ghost predicate KeyedById(sessions: Sessions, approvals: Approvals) {
    && (forall k :: k in sessions ==> sessions[k].id == k)
    && (forall k :: k in approvals ==> approvals[k].id == k)
  }

  /** `approvals.retain(|_, approval| approval.session_id != session_id)`. */
  function WithoutSession(approvals: Approvals, session: string): Approvals {
    map k | k in approvals && approvals[k].session != session :: approvals[k]
  }
}
