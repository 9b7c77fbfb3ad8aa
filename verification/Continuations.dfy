/** Continuation rows as Environment projects them, and the checkout they belong to. */
module Continuations {
  import opened Wrappers

  type SessionId = string

  /** A projected list that should hold only texts. */
  datatype Texts = Absent | NotTexts | Texts(items: seq<string>)

  /** A claim scope; what overlaps what is Environment's answer. */
  type Scope = nat

  datatype Claim = NotObject | Claim(id: Option<string>, repository: string, held: bool, scope: Option<Scope>)

  /** A checkpoint projection: its identity if well shaped, its sequence if a number. */
  datatype Latest = NoCheckpoint | Checkpoint(identity: Option<string>, sequence: Option<int>)

  datatype Context = Context(definition: Option<string>, workspace: Option<string>)

  datatype Row = Row(
    session: Option<SessionId>, context: Context, lifecycle: string, linked: bool,
    claimIds: Texts, claims: Option<seq<Claim>>, claimsTruncated: bool,
    latest: Latest, checkpointIds: Texts)

  datatype Checkout = Checkout(repository: string, path: Option<string>, identity: nat)

  /** What Environment's scope checker answers for a claim against the selected checkout. */
  datatype Overlap = Conflicts | Disjoint | Raises

  type Checker = Scope -> Overlap
}
