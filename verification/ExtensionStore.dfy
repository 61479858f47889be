module ExtensionStore {
  // The bounded store behind the bot's conversations: short-lived tokens, one
  // expected input per owner, and a generation per owner that binds confirmations
  // to the operation that issued them. Each store method is one function on
  // `State`; time and token entropy are arguments.

  import opened Options
  import opened Sizes
  import opened Totals

  const TOKEN_ATTEMPTS := 8
  const MAX_KIND := 64
  const FIELD_LIMITS: seq<nat> := [4096, 4096, 4096, 4096, 4096, 4096, 256, 256, 65536]

  datatype Owner = Owner(admin: int, chat: int) {
    predicate Valid() {
      admin > 0 && chat > 0
    }
  }

  /** The nine bounded string fields of a payload, in order, beside its kind, flag and opaque document. */
  datatype Payload = Payload(kind: string, fields: seq<string>, flag: bool, raw: string)

  datatype Purpose = Confirmation | Selection

  datatype TokenEntry = TokenEntry(purpose: Purpose, owner: Owner, payload: Payload, generation: nat, expiresAt: nat, bytes: nat)

  datatype InputEntry = InputEntry(kind: string, payload: Payload, expiresAt: nat, bytes: nat)

  datatype GenEntry = GenEntry(value: nat, expiresAt: nat, active: bool)

  datatype Limits = Limits(
    confirmationTTL: nat, selectionTTL: nat, inputTTL: nat,
    maxTokens: nat, maxInputs: nat, maxPayload: nat, maxState: nat)

  datatype State = State(
    tokens: map<string, TokenEntry>,
    inputs: map<Owner, InputEntry>,
    gens: map<Owner, GenEntry>,
    nextGeneration: nat)

  /** An operation as its context carries it. */
  datatype Operation = Operation(owner: Owner, generation: nat)

  // ---------- Sizes ----------

  function SumLengths(fields: seq<string>): nat {
    if fields == [] then 0 else |fields[0]| + SumLengths(fields[1..])
  }

  predicate ValidKind(kind: string) {
    kind != "" && |kind| <= MAX_KIND
  }

  const INPUT_KINDS: set<string> := {
    "marketplace-url", "marketplace-name", "module-url", "local-yaml",
    "setting-text", "setting-number", "setting-location"
  }

  predicate Base64Char(c: char) {
    'A' <= c <= 'Z' || 'a' <= c <= 'z' || '0' <= c <= '9' || c == '-' || c == '_'
  }

  /** Twelve bytes in unpadded URL-safe base64. */
  predicate ValidTokenText(token: string) {
    |token| == 16 && forall i :: 0 <= i < 16 ==> Base64Char(token[i])
  }

  predicate ValidPayload(p: Payload) {
    && ValidKind(p.kind)
    && |p.fields| == |FIELD_LIMITS|
    && forall i :: 0 <= i < |FIELD_LIMITS| ==> |p.fields[i]| <= FIELD_LIMITS[i]
  }

  function PayloadBytes(p: Payload): nat {
    |p.kind| + |p.raw| + SumLengths(p.fields)
  }

  ghost function TokenBytes(tokens: map<string, TokenEntry>): nat {
    Total(map t | t in tokens :: tokens[t].bytes)
  }

  ghost function InputBytes(inputs: map<Owner, InputEntry>): nat {
    Total(map o | o in inputs :: inputs[o].bytes)
  }

  ghost function UsedBytes(s: State): nat {
    TokenBytes(s.tokens) + InputBytes(s.inputs)
  }

  // ---------- Shared pieces ----------

  function LiveTokens(tokens: map<string, TokenEntry>, now: nat): map<string, TokenEntry> {
    map t | t in tokens && now < tokens[t].expiresAt :: tokens[t]
  }

  function LiveInputs(inputs: map<Owner, InputEntry>, now: nat): map<Owner, InputEntry> {
    map o | o in inputs && now < inputs[o].expiresAt :: inputs[o]
  }

  function LiveGens(gens: map<Owner, GenEntry>, now: nat): map<Owner, GenEntry> {
    map o | o in gens && now < gens[o].expiresAt :: gens[o]
  }

  function Pruned(s: State, now: nat): State {
    s.(tokens := LiveTokens(s.tokens, now), inputs := LiveInputs(s.inputs, now), gens := LiveGens(s.gens, now))
  }

  predicate CanAdvance(lim: Limits, s: State, owner: Owner) {
    owner in s.gens || |s.gens| < lim.maxTokens
  }

  /** `advanceGenerationLocked`; the flag is what the caller stores right after. */
  function Advanced(lim: Limits, s: State, owner: Owner, now: nat, active: bool): State {
    if !CanAdvance(lim, s, owner) then s
    else
      s.(nextGeneration := s.nextGeneration + 1,
         gens := s.gens[owner := GenEntry(s.nextGeneration + 1, now + lim.selectionTTL, active)])
  }

  predicate Current(s: State, op: Operation) {
    op.owner in s.gens && s.gens[op.owner].value == op.generation
  }

  /** The first of at most eight generated tokens that is not in use; a short supply is an entropy failure. */
  function NewToken(tokens: map<string, TokenEntry>, supply: seq<string>, attempts: nat): Option<string> {
    if attempts == 0 || supply == [] then None
    else if supply[0] !in tokens then Some(supply[0])
    else NewToken(tokens, supply[1..], attempts - 1)
  }

  /** The confirmations a new one of the same owner and kind replaces. */
  function Replaced(tokens: map<string, TokenEntry>, purpose: Purpose, owner: Owner, kind: string): set<string> {
    set t | t in tokens && purpose == Confirmation && tokens[t].purpose == Confirmation && tokens[t].owner == owner && tokens[t].payload.kind == kind
  }

  // ---------- The methods ----------

  datatype Error = BadOwner | BadPayload | NoOperation | NotCurrent | TooLarge | Full | NoToken

  datatype Out =
    | Failed(error: Error)
    | Issued(token: string, expiresAt: nat)
    | Yielded(payload: Payload)
    | Missing
    | Flag(value: bool)
    | Generation(generation: nat)
    | Claimed(input: InputEntry, generation: nat)
    | Cutoff(removed: bool, cutoff: nat)
    | Done

  /** The state with the confirmations replaced by a new entry taken out. */
  function WithoutReplaced(s: State, purpose: Purpose, owner: Owner, kind: string): State {
    s.(tokens := s.tokens - Replaced(s.tokens, purpose, owner, kind))
  }

  ghost predicate HasRoom(lim: Limits, s: State, size: nat) {
    |s.tokens| < lim.maxTokens && UsedBytes(s) + size <= lim.maxState
  }

  function StoredEntry(lim: Limits, purpose: Purpose, owner: Owner, payload: Payload, bound: Option<nat>, now: nat): TokenEntry {
    var expiresAt := now + if purpose == Confirmation then lim.confirmationTTL else lim.selectionTTL;
    TokenEntry(purpose, owner, payload, if bound.Some? then bound.value else 0, expiresAt, PayloadBytes(payload))
  }

  ghost function IssueUnder(lim: Limits, s: State, token: string, entry: TokenEntry): (State, Out) {
    var kept := WithoutReplaced(s, entry.purpose, entry.owner, entry.payload.kind);
    if !HasRoom(lim, kept, entry.bytes) then (s, Failed(Full))
    else (kept.(tokens := kept.tokens[token := entry]), Issued(token, entry.expiresAt))
  }

  /** `bound` is the operation of `IssueConfirmationForOperation`, absent in plain `issueToken`. */
  ghost function Issue(lim: Limits, s0: State, purpose: Purpose, owner: Owner, payload: Payload, bound: Option<nat>, supply: seq<string>, now: nat): (State, Out) {
    var s := Pruned(s0, now);
    if bound.Some? && !Current(s, Operation(owner, bound.value)) then (s, Failed(NotCurrent))
    else if PayloadBytes(payload) > lim.maxPayload then (s, Failed(TooLarge))
    else
      var token := NewToken(s.tokens, supply, TOKEN_ATTEMPTS);
      if token.None? then (s, Failed(NoToken))
      else IssueUnder(lim, s, token.value, StoredEntry(lim, purpose, owner, payload, bound, now))
  }

  ghost function IssueSelectionForOperation(lim: Limits, s0: State, op: Operation, payload: Payload, supply: seq<string>, now: nat): (State, Out) {
    var s := Pruned(s0, now);
    var size := PayloadBytes(payload);
    if !Current(s, op) then (s, Failed(NotCurrent))
    else if size > lim.maxPayload || |s.tokens| >= lim.maxTokens || UsedBytes(s) + size > lim.maxState then (s, Failed(Full))
    else
      var token := NewToken(s.tokens, supply, TOKEN_ATTEMPTS);
      if token.None? then (s, Failed(NoToken))
      else
        var expiresAt := now + lim.selectionTTL;
        (s.(tokens := s.tokens[token.value := TokenEntry(Selection, op.owner, payload, 0, expiresAt, size)]), Issued(token.value, expiresAt))
  }

  predicate Redeemable(s: State, token: string, purpose: Purpose, owner: Owner, kind: string) {
    && token in s.tokens && s.tokens[token].purpose == purpose && s.tokens[token].owner == owner && s.tokens[token].payload.kind == kind
    && (purpose == Confirmation && s.tokens[token].generation != 0 ==> Current(s, Operation(owner, s.tokens[token].generation)))
  }

  function Redeem(s0: State, token: string, purpose: Purpose, owner: Owner, kind: string, consume: bool, now: nat): (State, Out) {
    var s := Pruned(s0, now);
    if !Redeemable(s, token, purpose, owner, kind) then (s, Missing)
    else (if consume then s.(tokens := s.tokens - {token}) else s, Yielded(s.tokens[token].payload))
  }

  function CancelToken(s0: State, token: string, purpose: Purpose, owner: Owner, now: nat): (State, Out) {
    var s := Pruned(s0, now);
    if token in s.tokens && s.tokens[token].purpose == purpose && s.tokens[token].owner == owner
    then (s.(tokens := s.tokens - {token}), Flag(true))
    else (s, Flag(false))
  }

  ghost function BeginInput(lim: Limits, s0: State, owner: Owner, kind: string, payload: Payload, bound: Option<nat>, now: nat): (State, Out) {
    var s := Pruned(s0, now);
    var size := PayloadBytes(payload);
    var kept := s.(inputs := s.inputs - {owner});
    if bound.Some? && !Current(s, Operation(owner, bound.value)) then (s, Failed(NotCurrent))
    else if size > lim.maxPayload then (s, Failed(if bound.Some? then Full else TooLarge))
    else if (owner !in s.inputs && |s.inputs| >= lim.maxInputs) || UsedBytes(kept) + size > lim.maxState then (s, Failed(Full))
    else (s.(inputs := s.inputs[owner := InputEntry(kind, payload, now + lim.inputTTL, size)]), Done)
  }

  function PeekInput(s0: State, owner: Owner, now: nat): (State, Out) {
    var s := Pruned(s0, now);
    (s, if owner in s.inputs then Yielded(s.inputs[owner].payload) else Missing)
  }

  function ConsumeInput(lim: Limits, s0: State, owner: Owner, kind: string, now: nat): (State, Out) {
    var s := Advanced(lim, Pruned(s0, now), owner, now, false);
    if owner in s.inputs && s.inputs[owner].kind == kind
    then (s.(inputs := s.inputs - {owner}), Yielded(s.inputs[owner].payload))
    else (s, Missing)
  }

  function CancelInput(lim: Limits, s0: State, owner: Owner, now: nat): (State, Out) {
    var s := Advanced(lim, Pruned(s0, now), owner, now, false);
    (s.(inputs := s.inputs - {owner}), Flag(owner in s.inputs))
  }

  function OwnedBy(tokens: map<string, TokenEntry>, owner: Owner): set<string> {
    set t | t in tokens && tokens[t].owner == owner
  }

  /** `CancelOwnerWithGeneration`: the cutoff is 0 when a full table could not take the owner. */
  function CancelOwner(lim: Limits, s0: State, owner: Owner, now: nat): (State, Out) {
    var p := Pruned(s0, now);
    var s := Advanced(lim, p, owner, now, false);
    var removed := (owner in p.gens && p.gens[owner].active) || OwnedBy(s.tokens, owner) != {} || owner in s.inputs;
    (s.(tokens := s.tokens - OwnedBy(s.tokens, owner), inputs := s.inputs - {owner}),
     Cutoff(removed, if CanAdvance(lim, p, owner) then s.nextGeneration else 0))
  }

  function BeginOperation(lim: Limits, s0: State, owner: Owner, now: nat): (State, Out) {
    var p := Pruned(s0, now);
    var s := Advanced(lim, p.(inputs := p.inputs - {owner}), owner, now, true);
    (s, if CanAdvance(lim, p, owner) then Generation(s.nextGeneration) else Failed(Full))
  }

  function ClaimInput(lim: Limits, s0: State, owner: Owner, now: nat): (State, Out) {
    var p := Pruned(s0, now);
    if owner !in p.inputs || !CanAdvance(lim, p, owner) then (p, Missing)
    else
      var s := Advanced(lim, p, owner, now, true);
      (s.(inputs := s.inputs - {owner}), Claimed(p.inputs[owner], s.nextGeneration))
  }

  function FinishOperation(s0: State, op: Operation, now: nat): (State, Out) {
    var s := Pruned(s0, now);
    (if Current(s, op) then s.(gens := s.gens[op.owner := s.gens[op.owner].(active := false)]) else s, Done)
  }

  function OperationCurrent(s0: State, op: Operation, now: nat): (State, Out) {
    (Pruned(s0, now), Flag(Current(Pruned(s0, now), op)))
  }

  function SelectionsOf(tokens: map<string, TokenEntry>, owner: Owner, kind: string): set<string> {
    set t | t in tokens && tokens[t].owner == owner && tokens[t].purpose == Selection && tokens[t].payload.kind == kind
  }

  function CancelSelections(s0: State, op: Operation, kind: string, now: nat): (State, Out) {
    var s := Pruned(s0, now);
    if !Current(s, op) then (s, Failed(NotCurrent))
    else (s.(tokens := s.tokens - SelectionsOf(s.tokens, op.owner, kind)), Flag(SelectionsOf(s.tokens, op.owner, kind) != {}))
  }

  datatype Op =
    | IssueOp(purpose: Purpose, owner: Owner, payload: Payload, supply: seq<string>)
    | IssueBoundOp(op: Operation, payload: Payload, supply: seq<string>)
    | IssueSelectionBoundOp(op: Operation, payload: Payload, supply: seq<string>)
    | RedeemOp(token: string, purpose: Purpose, owner: Owner, kind: string, consume: bool)
    | CancelTokenOp(token: string, purpose: Purpose, owner: Owner)
    | BeginInputOp(owner: Owner, kind: string, payload: Payload)
    | BeginInputBoundOp(op: Operation, kind: string, payload: Payload)
    | InputOp(owner: Owner)
    | ConsumeInputOp(owner: Owner, kind: string)
    | CancelInputOp(owner: Owner)
    | CancelOwnerOp(owner: Owner)
    | BeginOp(owner: Owner)
    | ClaimOp(owner: Owner)
    | FinishOp(op: Operation)
    | CurrentOp(op: Operation)
    | CancelSelectionsOp(op: Operation, kind: string)
  {
    function Target(): Owner {
      match this
      case IssueOp(_, o, _, _) => o
      case RedeemOp(_, _, o, _, _) => o
      case CancelTokenOp(_, _, o) => o
      case BeginInputOp(o, _, _) => o
      case InputOp(o) => o
      case ConsumeInputOp(o, _) => o
      case CancelInputOp(o) => o
      case CancelOwnerOp(o) => o
      case BeginOp(o) => o
      case ClaimOp(o) => o
      case IssueBoundOp(op, _, _) => op.owner
      case IssueSelectionBoundOp(op, _, _) => op.owner
      case BeginInputBoundOp(op, _, _) => op.owner
      case FinishOp(op) => op.owner
      case CurrentOp(op) => op.owner
      case CancelSelectionsOp(op, _) => op.owner
    }
  }

  /** Argument validation, before the lock is taken: a rejected call does not even prune. */
  function Rejection(op: Op): Option<Out> {
    if !op.Target().Valid() && !op.FinishOp? && !op.CurrentOp? then Some(Failed(BadOwner))
    else match op
      case IssueOp(_, _, payload, _) => if ValidPayload(payload) then None else Some(Failed(BadPayload))
      case IssueBoundOp(o, payload, _) => RejectBound(o, payload)
      case IssueSelectionBoundOp(o, payload, _) => RejectBound(o, payload)
      case RedeemOp(token, _, _, kind, _) => if ValidKind(kind) && ValidTokenText(token) then None else Some(Missing)
      case CancelTokenOp(token, _, _) => if ValidTokenText(token) then None else Some(Flag(false))
      case BeginInputOp(_, kind, payload) => if kind in INPUT_KINDS && ValidPayload(payload) then None else Some(Failed(BadPayload))
      case BeginInputBoundOp(o, kind, payload) => if kind in INPUT_KINDS then RejectBound(o, payload) else Some(Failed(NoOperation))
      case ConsumeInputOp(_, kind) => if kind in INPUT_KINDS then None else Some(Missing)
      case CancelSelectionsOp(o, kind) => if o.generation != 0 && ValidKind(kind) then None else Some(Failed(NoOperation))
      case _ => None
  }

  function RejectBound(o: Operation, payload: Payload): Option<Out> {
    if o.generation == 0 then Some(Failed(NoOperation)) else if !ValidPayload(payload) then Some(Failed(BadPayload)) else None
  }

  ghost function Perform(lim: Limits, s: State, op: Op, now: nat): (State, Out) {
    match op
    case IssueOp(purpose, owner, payload, supply) => Issue(lim, s, purpose, owner, payload, None, supply, now)
    case IssueBoundOp(o, payload, supply) => Issue(lim, s, Confirmation, o.owner, payload, Some(o.generation), supply, now)
    case IssueSelectionBoundOp(o, payload, supply) => IssueSelectionForOperation(lim, s, o, payload, supply, now)
    case RedeemOp(token, purpose, owner, kind, consume) => Redeem(s, token, purpose, owner, kind, consume, now)
    case CancelTokenOp(token, purpose, owner) => CancelToken(s, token, purpose, owner, now)
    case BeginInputOp(owner, kind, payload) => BeginInput(lim, s, owner, kind, payload, None, now)
    case BeginInputBoundOp(o, kind, payload) => BeginInput(lim, s, o.owner, kind, payload, Some(o.generation), now)
    case InputOp(owner) => PeekInput(s, owner, now)
    case ConsumeInputOp(owner, kind) => ConsumeInput(lim, s, owner, kind, now)
    case CancelInputOp(owner) => CancelInput(lim, s, owner, now)
    case CancelOwnerOp(owner) => CancelOwner(lim, s, owner, now)
    case BeginOp(owner) => BeginOperation(lim, s, owner, now)
    case ClaimOp(owner) => ClaimInput(lim, s, owner, now)
    case FinishOp(o) => FinishOperation(s, o, now)
    case CurrentOp(o) => OperationCurrent(s, o, now)
    case CancelSelectionsOp(o, kind) => CancelSelections(s, o, kind, now)
  }

  /** One method call. */
  ghost function Step(lim: Limits, s: State, op: Op, now: nat): (State, Out) {
    var rejected := Rejection(op);
    if rejected.Some? then (s, rejected.value) else Perform(lim, s, op, now)
  }

  // ---------- Bounds ----------

  ghost predicate Bounded(lim: Limits, s: State) {
    && UsedBytes(s) <= lim.maxState
    && |s.tokens| <= lim.maxTokens && |s.inputs| <= lim.maxInputs && |s.gens| <= lim.maxTokens
  }

  predicate SubTokens(a: map<string, TokenEntry>, b: map<string, TokenEntry>) {
    a.Keys <= b.Keys && forall t :: t in a ==> a[t] == b[t]
  }

  predicate SubInputs(a: map<Owner, InputEntry>, b: map<Owner, InputEntry>) {
    a.Keys <= b.Keys && forall o :: o in a ==> a[o] == b[o]
  }

  /** Anything that only drops tokens, inputs and generations stays within bounds. */
  lemma {:induction false} ShrinkingKeepsBounds(lim: Limits, a: State, b: State)
    requires SubTokens(a.tokens, b.tokens) && SubInputs(a.inputs, b.inputs) && a.gens.Keys <= b.gens.Keys
    ensures UsedBytes(a) <= UsedBytes(b)
    ensures Bounded(lim, b) ==> Bounded(lim, a)
  {
    TotalSubmap(map t | t in a.tokens :: a.tokens[t].bytes, map t | t in b.tokens :: b.tokens[t].bytes);
    TotalSubmap(map o | o in a.inputs :: a.inputs[o].bytes, map o | o in b.inputs :: b.inputs[o].bytes);
    SizeSubmap(a.tokens, b.tokens);
    SizeSubmap(a.inputs, b.inputs);
    SizeSubmap(a.gens, b.gens);
  }

  lemma {:induction false} AdvanceKeepsBounds(lim: Limits, s: State, owner: Owner, now: nat, active: bool)
    requires Bounded(lim, s)
    ensures Bounded(lim, Advanced(lim, s, owner, now, active))
  {
    SizeInsert(s.gens, owner, GenEntry(s.nextGeneration + 1, now + lim.selectionTTL, active));
  }

  lemma {:induction false} AddTokenBytes(tokens: map<string, TokenEntry>, t: string, e: TokenEntry)
    requires t !in tokens
    ensures TokenBytes(tokens[t := e]) == TokenBytes(tokens) + e.bytes
    ensures |tokens[t := e]| == |tokens| + 1
  {
    var sizes := map u | u in tokens :: tokens[u].bytes;
    var more := tokens[t := e];
    assert (map u | u in more :: more[u].bytes) == sizes[t := e.bytes];
    TotalInsert(sizes, t, e.bytes);
    SizeInsert(tokens, t, e);
  }

  lemma {:induction false} PutInputBytes(inputs: map<Owner, InputEntry>, o: Owner, e: InputEntry)
    ensures InputBytes(inputs[o := e]) == InputBytes(inputs - {o}) + e.bytes
    ensures |inputs[o := e]| == if o in inputs then |inputs| else |inputs| + 1
  {
    var rest := inputs - {o};
    var sizes := map u | u in rest :: rest[u].bytes;
    var more := inputs[o := e];
    assert (map u | u in more :: more[u].bytes) == sizes[o := e.bytes];
    TotalInsert(sizes, o, e.bytes);
    SizeInsert(inputs, o, e);
  }

  lemma {:induction false} NewTokenIsUnused(tokens: map<string, TokenEntry>, supply: seq<string>, attempts: nat)
    ensures NewToken(tokens, supply, attempts).Some? ==> NewToken(tokens, supply, attempts).value !in tokens
    decreases attempts
  {
    if attempts > 0 && supply != [] && supply[0] in tokens {
      NewTokenIsUnused(tokens, supply[1..], attempts - 1);
    }
  }

  lemma {:induction false} IssueKeepsBounds(lim: Limits, s0: State, purpose: Purpose, owner: Owner, payload: Payload, bound: Option<nat>, supply: seq<string>, now: nat)
    requires Bounded(lim, s0)
    ensures Bounded(lim, Issue(lim, s0, purpose, owner, payload, bound, supply, now).0)
  {
    var (s', out) := Issue(lim, s0, purpose, owner, payload, bound, supply, now);
    var s := Pruned(s0, now);
    ShrinkingKeepsBounds(lim, s, s0);
    if out.Issued? {
      var kept := WithoutReplaced(s, purpose, owner, payload.kind);
      NewTokenIsUnused(s.tokens, supply, TOKEN_ATTEMPTS);
      AddTokenBytes(kept.tokens, out.token, s'.tokens[out.token]);
    }
  }

  lemma {:induction false} SelectionKeepsBounds(lim: Limits, s0: State, op: Operation, payload: Payload, supply: seq<string>, now: nat)
    requires Bounded(lim, s0)
    ensures Bounded(lim, IssueSelectionForOperation(lim, s0, op, payload, supply, now).0)
  {
    var (s', out) := IssueSelectionForOperation(lim, s0, op, payload, supply, now);
    var s := Pruned(s0, now);
    ShrinkingKeepsBounds(lim, s, s0);
    if out.Issued? {
      NewTokenIsUnused(s.tokens, supply, TOKEN_ATTEMPTS);
      AddTokenBytes(s.tokens, out.token, s'.tokens[out.token]);
    }
  }

  lemma {:induction false} InputKeepsBounds(lim: Limits, s0: State, owner: Owner, kind: string, payload: Payload, bound: Option<nat>, now: nat)
    requires Bounded(lim, s0)
    ensures Bounded(lim, BeginInput(lim, s0, owner, kind, payload, bound, now).0)
  {
    var (s', out) := BeginInput(lim, s0, owner, kind, payload, bound, now);
    var s := Pruned(s0, now);
    ShrinkingKeepsBounds(lim, s, s0);
    if out.Done? {
      PutInputBytes(s.inputs, owner, s'.inputs[owner]);
    }
  }

  /** The methods that may advance the owner's generation and otherwise only drop state. */
  lemma {:induction false} AdvanceAndDropKeepsBounds(lim: Limits, s: State, owner: Owner, now: nat)
    requires Bounded(lim, s)
    ensures var t := Advanced(lim, Pruned(s, now), owner, now, false);
            Bounded(lim, t) && Bounded(lim, t.(inputs := t.inputs - {owner}))
  {
    var p := Pruned(s, now);
    ShrinkingKeepsBounds(lim, p, s);
    AdvanceKeepsBounds(lim, p, owner, now, false);
    var t := Advanced(lim, p, owner, now, false);
    ShrinkingKeepsBounds(lim, t.(inputs := t.inputs - {owner}), t);
  }

  lemma {:induction false} ConsumeInputKeepsBounds(lim: Limits, s: State, owner: Owner, kind: string, now: nat)
    requires Bounded(lim, s)
    ensures Bounded(lim, ConsumeInput(lim, s, owner, kind, now).0)
  {
    AdvanceAndDropKeepsBounds(lim, s, owner, now);
  }

  lemma {:induction false} CancelInputKeepsBounds(lim: Limits, s: State, owner: Owner, now: nat)
    requires Bounded(lim, s)
    ensures Bounded(lim, CancelInput(lim, s, owner, now).0)
  {
    AdvanceAndDropKeepsBounds(lim, s, owner, now);
  }

  lemma {:induction false} CancelOwnerKeepsBounds(lim: Limits, s: State, owner: Owner, now: nat)
    requires Bounded(lim, s)
    ensures Bounded(lim, CancelOwner(lim, s, owner, now).0)
  {
    AdvanceAndDropKeepsBounds(lim, s, owner, now);
    var t := Advanced(lim, Pruned(s, now), owner, now, false);
    var u := t.(inputs := t.inputs - {owner});
    ShrinkingKeepsBounds(lim, u.(tokens := u.tokens - OwnedBy(t.tokens, owner)), u);
  }

  lemma {:induction false} BeginKeepsBounds(lim: Limits, s: State, owner: Owner, now: nat)
    requires Bounded(lim, s)
    ensures Bounded(lim, BeginOperation(lim, s, owner, now).0)
  {
    var p := Pruned(s, now);
    var q := p.(inputs := p.inputs - {owner});
    ShrinkingKeepsBounds(lim, q, s);
    AdvanceKeepsBounds(lim, q, owner, now, true);
  }

  lemma {:induction false} ClaimKeepsBounds(lim: Limits, s: State, owner: Owner, now: nat)
    requires Bounded(lim, s)
    ensures Bounded(lim, ClaimInput(lim, s, owner, now).0)
  {
    var p := Pruned(s, now);
    ShrinkingKeepsBounds(lim, p, s);
    AdvanceKeepsBounds(lim, p, owner, now, true);
    var t := Advanced(lim, p, owner, now, true);
    ShrinkingKeepsBounds(lim, t.(inputs := t.inputs - {owner}), t);
  }

  lemma {:induction false} PruneAndDropKeepsBounds(lim: Limits, s: State, now: nat, gone: set<string>)
    requires Bounded(lim, s)
    ensures Bounded(lim, Pruned(s, now))
    ensures Bounded(lim, Pruned(s, now).(tokens := Pruned(s, now).tokens - gone))
  {
    ShrinkingKeepsBounds(lim, Pruned(s, now), s);
    ShrinkingKeepsBounds(lim, Pruned(s, now).(tokens := Pruned(s, now).tokens - gone), s);
  }

  lemma {:induction false} FinishKeepsBounds(lim: Limits, s: State, op: Operation, now: nat)
    requires Bounded(lim, s)
    ensures Bounded(lim, FinishOperation(s, op, now).0)
  {
    ShrinkingKeepsBounds(lim, FinishOperation(s, op, now).0, s);
  }

  lemma {:induction false} TokenMethodsKeepBounds(lim: Limits, s: State, token: string, purpose: Purpose, owner: Owner, kind: string, consume: bool, now: nat)
    requires Bounded(lim, s)
    ensures Bounded(lim, Redeem(s, token, purpose, owner, kind, consume, now).0)
    ensures Bounded(lim, CancelToken(s, token, purpose, owner, now).0)
  {
    PruneAndDropKeepsBounds(lim, s, now, {token});
  }

  lemma {:induction false} CancelSelectionsKeepsBounds(lim: Limits, s: State, op: Operation, kind: string, now: nat)
    requires Bounded(lim, s)
    ensures Bounded(lim, CancelSelections(s, op, kind, now).0)
  {
    PruneAndDropKeepsBounds(lim, s, now, SelectionsOf(Pruned(s, now).tokens, op.owner, kind));
  }

  lemma {:induction false} ReadsKeepBounds(lim: Limits, s: State, owner: Owner, op: Operation, now: nat)
    requires Bounded(lim, s)
    ensures Bounded(lim, PeekInput(s, owner, now).0)
    ensures Bounded(lim, OperationCurrent(s, op, now).0)
  {
    PruneAndDropKeepsBounds(lim, s, now, {});
  }

  lemma {:induction false} PerformKeepsBounds(lim: Limits, s: State, op: Op, now: nat)
    requires Bounded(lim, s)
    ensures Bounded(lim, Perform(lim, s, op, now).0)
  {
    match op
    case IssueOp(purpose, owner, payload, supply) => IssueKeepsBounds(lim, s, purpose, owner, payload, None, supply, now);
    case IssueBoundOp(o, payload, supply) => IssueKeepsBounds(lim, s, Confirmation, o.owner, payload, Some(o.generation), supply, now);
    case IssueSelectionBoundOp(o, payload, supply) => SelectionKeepsBounds(lim, s, o, payload, supply, now);
    case BeginInputOp(owner, kind, payload) => InputKeepsBounds(lim, s, owner, kind, payload, None, now);
    case BeginInputBoundOp(o, kind, payload) => InputKeepsBounds(lim, s, o.owner, kind, payload, Some(o.generation), now);
    case ConsumeInputOp(owner, kind) => ConsumeInputKeepsBounds(lim, s, owner, kind, now);
    case CancelInputOp(owner) => CancelInputKeepsBounds(lim, s, owner, now);
    case CancelOwnerOp(owner) => CancelOwnerKeepsBounds(lim, s, owner, now);
    case BeginOp(owner) => BeginKeepsBounds(lim, s, owner, now);
    case ClaimOp(owner) => ClaimKeepsBounds(lim, s, owner, now);
    case FinishOp(o) => FinishKeepsBounds(lim, s, o, now);
    case RedeemOp(token, purpose, owner, kind, consume) => TokenMethodsKeepBounds(lim, s, token, purpose, owner, kind, consume, now);
    case CancelTokenOp(token, purpose, owner) => TokenMethodsKeepBounds(lim, s, token, purpose, owner, "", false, now);
    case CancelSelectionsOp(o, kind) => CancelSelectionsKeepsBounds(lim, s, o, kind, now);
    case InputOp(owner) => ReadsKeepBounds(lim, s, owner, Operation(owner, 0), now);
    case CurrentOp(o) => ReadsKeepBounds(lim, s, o.owner, o, now);
  }

  /** Every method keeps the byte cap and the three count limits. */
  lemma {:induction false} StepKeepsBounds(lim: Limits, s: State, op: Op, now: nat)
    requires Bounded(lim, s)
    ensures Bounded(lim, Step(lim, s, op, now).0)
  {
    PerformKeepsBounds(lim, s, op, now);
  }

  // ---------- Generations ----------

  predicate GensInv(s: State) {
    forall o :: o in s.gens ==> 0 < s.gens[o].value <= s.nextGeneration
  }

  /** A generation of `owner` that is no longer the current one. */
  predicate Superseded(s: State, owner: Owner, g: nat) {
    owner !in s.gens || s.gens[owner].value != g
  }

  /** Every value in the table after a step was there before, or is newer than anything issued before. */
  predicate GensMove(s: State, s': State) {
    && s.nextGeneration <= s'.nextGeneration
    && forall o :: o in s'.gens ==> (o in s.gens && s'.gens[o].value == s.gens[o].value) || s.nextGeneration < s'.gens[o].value <= s'.nextGeneration
  }

  /** What a method does to the generation table: expire entries, then perhaps advance or deactivate one. */
  ghost predicate GensOnlyExpire(s: State, s': State, now: nat) {
    s'.gens == LiveGens(s.gens, now) && s'.nextGeneration == s.nextGeneration
  }

  lemma {:induction false} IssuingLeavesGens(lim: Limits, s: State, purpose: Purpose, owner: Owner, payload: Payload, bound: Option<nat>, supply: seq<string>, kind: string, now: nat)
    ensures GensOnlyExpire(s, Issue(lim, s, purpose, owner, payload, bound, supply, now).0, now)
    ensures GensOnlyExpire(s, BeginInput(lim, s, owner, kind, payload, bound, now).0, now)
  {
  }

  lemma {:induction false} SelectionLeavesGens(lim: Limits, s: State, op: Operation, payload: Payload, supply: seq<string>, now: nat)
    ensures GensOnlyExpire(s, IssueSelectionForOperation(lim, s, op, payload, supply, now).0, now)
  {
  }

  lemma {:induction false} AdvanceMovesGens(lim: Limits, s: State, owner: Owner, kind: string, now: nat)
    ensures GensMove(s, ConsumeInput(lim, s, owner, kind, now).0)
    ensures GensMove(s, CancelInput(lim, s, owner, now).0)
    ensures GensMove(s, CancelOwner(lim, s, owner, now).0)
    ensures GensMove(s, BeginOperation(lim, s, owner, now).0)
    ensures GensMove(s, ClaimInput(lim, s, owner, now).0)
  {
  }

  lemma {:induction false} FinishMovesGens(s: State, op: Operation, now: nat)
    ensures GensMove(s, FinishOperation(s, op, now).0)
  {
  }

  lemma {:induction false} ExpiryMovesGens(s: State, s': State, now: nat)
    requires GensOnlyExpire(s, s', now)
    ensures GensMove(s, s')
  {
  }

  lemma {:induction false} IssuingMovesGens(lim: Limits, s: State, op: Op, now: nat)
    requires op.IssueOp? || op.IssueBoundOp? || op.IssueSelectionBoundOp? || op.BeginInputOp? || op.BeginInputBoundOp?
    ensures GensOnlyExpire(s, Perform(lim, s, op, now).0, now)
  {
    match op
    case IssueOp(purpose, owner, payload, supply) => IssuingLeavesGens(lim, s, purpose, owner, payload, None, supply, "", now);
    case IssueBoundOp(o, payload, supply) => IssuingLeavesGens(lim, s, Confirmation, o.owner, payload, Some(o.generation), supply, "", now);
    case IssueSelectionBoundOp(o, payload, supply) => SelectionLeavesGens(lim, s, o, payload, supply, now);
    case BeginInputOp(owner, kind, payload) => IssuingLeavesGens(lim, s, Confirmation, owner, payload, None, [], kind, now);
    case BeginInputBoundOp(o, kind, payload) => IssuingLeavesGens(lim, s, Confirmation, o.owner, payload, Some(o.generation), [], kind, now);
  }

  lemma {:induction false} TokenMethodsMoveGens(lim: Limits, s: State, op: Op, now: nat)
    requires op.RedeemOp? || op.CancelTokenOp? || op.InputOp? || op.CurrentOp? || op.CancelSelectionsOp?
    ensures GensOnlyExpire(s, Perform(lim, s, op, now).0, now)
  {
  }

  lemma {:induction false} AdvancersMoveGens(lim: Limits, s: State, op: Op, now: nat)
    requires op.ConsumeInputOp? || op.CancelInputOp? || op.CancelOwnerOp? || op.BeginOp? || op.ClaimOp? || op.FinishOp?
    ensures GensMove(s, Perform(lim, s, op, now).0)
  {
    match op
    case ConsumeInputOp(owner, kind) => AdvanceMovesGens(lim, s, owner, kind, now);
    case FinishOp(o) => FinishMovesGens(s, o, now);
    case _ => AdvanceMovesGens(lim, s, op.Target(), "", now);
  }

  lemma {:induction false} StepMovesGens(lim: Limits, s: State, op: Op, now: nat)
    ensures GensMove(s, Step(lim, s, op, now).0)
  {
    if Rejection(op).None? {
      var s' := Perform(lim, s, op, now).0;
      if op.IssueOp? || op.IssueBoundOp? || op.IssueSelectionBoundOp? || op.BeginInputOp? || op.BeginInputBoundOp? {
        IssuingMovesGens(lim, s, op, now);
        ExpiryMovesGens(s, s', now);
      } else if op.RedeemOp? || op.CancelTokenOp? || op.InputOp? || op.CurrentOp? || op.CancelSelectionsOp? {
        TokenMethodsMoveGens(lim, s, op, now);
        ExpiryMovesGens(s, s', now);
      } else {
        AdvancersMoveGens(lim, s, op, now);
      }
    }
  }

  lemma {:induction false} SupersededStays(s: State, s': State, owner: Owner, g: nat)
    requires GensMove(s, s') && g <= s.nextGeneration && Superseded(s, owner, g)
    ensures Superseded(s', owner, g)
  {
  }

  /** A begin, a claim that finds an input, an input taken or cancelled, or an owner cancellation. */
  predicate Supersedes(s: State, op: Op, now: nat, owner: Owner) {
    && op.Target() == owner && Rejection(op).None?
    && (op.BeginOp? || op.ConsumeInputOp? || op.CancelInputOp? || op.CancelOwnerOp? || (op.ClaimOp? && owner in LiveInputs(s.inputs, now)))
  }

  /** After it no earlier generation is current, even when a full table took no new one. */
  lemma {:induction false} SupersedingTakesEffect(lim: Limits, s: State, op: Op, now: nat, owner: Owner, g: nat)
    requires Supersedes(s, op, now, owner) && g <= s.nextGeneration && GensInv(s)
    ensures Superseded(Step(lim, s, op, now).0, owner, g)
  {
  }

  // ---------- What a step does to tokens ----------

  predicate IsIssue(op: Op) {
    op.IssueOp? || op.IssueBoundOp? || op.IssueSelectionBoundOp?
  }

  /** The entry a successful issue stores. */
  function IssuedEntry(lim: Limits, op: Op, now: nat): TokenEntry
    requires IsIssue(op)
  {
    match op
    case IssueOp(purpose, owner, payload, _) =>
      TokenEntry(purpose, owner, payload, 0, now + if purpose == Confirmation then lim.confirmationTTL else lim.selectionTTL, PayloadBytes(payload))
    case IssueBoundOp(o, payload, _) =>
      TokenEntry(Confirmation, o.owner, payload, o.generation, now + lim.confirmationTTL, PayloadBytes(payload))
    case IssueSelectionBoundOp(o, payload, _) =>
      TokenEntry(Selection, o.owner, payload, 0, now + lim.selectionTTL, PayloadBytes(payload))
  }

  /** Tokens after a step were there before, unless this step issued them. */
  ghost predicate TokensMove(lim: Limits, s: State, op: Op, now: nat, s': State, out: Out) {
    && (out.Issued? ==> IsIssue(op) && out.token in s'.tokens && s'.tokens[out.token] == IssuedEntry(lim, op, now))
    && (forall t :: t in s'.tokens ==> (out.Issued? && out.token == t) || (t in s.tokens && s.tokens[t] == s'.tokens[t]))
    && (op.RedeemOp? && op.consume && out.Yielded? ==> op.token !in s'.tokens)
    && (op.IssueBoundOp? && out.Issued? ==> !Superseded(s', op.op.owner, op.op.generation))
  }

  predicate TokensDrop(s: State, s': State) {
    SubTokens(s'.tokens, s.tokens)
  }

  lemma {:induction false} IssueStores(lim: Limits, s: State, purpose: Purpose, owner: Owner, payload: Payload, bound: Option<nat>, supply: seq<string>, now: nat)
    ensures var (s', out) := Issue(lim, s, purpose, owner, payload, bound, supply, now);
            if out.Issued? then
              && out.token in s'.tokens
              && s'.tokens[out.token] == TokenEntry(purpose, owner, payload, if bound.Some? then bound.value else 0,
                                                    now + if purpose == Confirmation then lim.confirmationTTL else lim.selectionTTL, PayloadBytes(payload))
              && SubTokens(s'.tokens - {out.token}, s.tokens)
              && (bound.Some? ==> !Superseded(s', owner, bound.value))
            else TokensDrop(s, s')
  {
  }

  lemma {:induction false} SelectionStores(lim: Limits, s: State, op: Operation, payload: Payload, supply: seq<string>, now: nat)
    ensures var (s', out) := IssueSelectionForOperation(lim, s, op, payload, supply, now);
            if out.Issued? then
              && out.token in s'.tokens
              && s'.tokens[out.token] == TokenEntry(Selection, op.owner, payload, 0, now + lim.selectionTTL, PayloadBytes(payload))
              && SubTokens(s'.tokens - {out.token}, s.tokens)
            else TokensDrop(s, s')
  {
  }

  lemma {:induction false} AdvancingDropsTokens(lim: Limits, s: State, owner: Owner, kind: string, now: nat)
    ensures TokensDrop(s, ConsumeInput(lim, s, owner, kind, now).0) && !ConsumeInput(lim, s, owner, kind, now).1.Issued?
    ensures TokensDrop(s, CancelInput(lim, s, owner, now).0)
    ensures TokensDrop(s, CancelOwner(lim, s, owner, now).0)
    ensures TokensDrop(s, BeginOperation(lim, s, owner, now).0)
    ensures TokensDrop(s, ClaimInput(lim, s, owner, now).0)
  {
  }

  lemma {:induction false} InputDropsTokens(lim: Limits, s: State, owner: Owner, kind: string, payload: Payload, bound: Option<nat>, now: nat)
    ensures TokensDrop(s, BeginInput(lim, s, owner, kind, payload, bound, now).0)
    ensures !BeginInput(lim, s, owner, kind, payload, bound, now).1.Issued?
  {
  }

  lemma {:induction false} OthersDropTokens(s: State, op: Operation, token: string, purpose: Purpose, kind: string, consume: bool, now: nat)
    ensures TokensDrop(s, FinishOperation(s, op, now).0)
    ensures TokensDrop(s, OperationCurrent(s, op, now).0)
    ensures TokensDrop(s, PeekInput(s, op.owner, now).0)
    ensures TokensDrop(s, CancelSelections(s, op, kind, now).0)
    ensures TokensDrop(s, CancelToken(s, token, purpose, op.owner, now).0)
    ensures var (s', out) := Redeem(s, token, purpose, op.owner, kind, consume, now);
            TokensDrop(s, s') && (consume && out.Yielded? ==> token !in s'.tokens)
  {
  }

  lemma {:induction false} StoringIsMove(lim: Limits, s: State, op: Op, now: nat, s': State, out: Out)
    requires out.Issued? && IsIssue(op) && out.token in s'.tokens && s'.tokens[out.token] == IssuedEntry(lim, op, now)
    requires SubTokens(s'.tokens - {out.token}, s.tokens)
    requires op.IssueBoundOp? ==> !Superseded(s', op.op.owner, op.op.generation)
    ensures TokensMove(lim, s, op, now, s', out)
  {
    forall t | t in s'.tokens
      ensures out.token == t || (t in s.tokens && s.tokens[t] == s'.tokens[t])
    {
      assert t != out.token ==> t in s'.tokens - {out.token};
    }
  }

  lemma {:induction false} DroppingIsMove(lim: Limits, s: State, op: Op, now: nat, s': State, out: Out)
    requires TokensDrop(s, s') && !out.Issued?
    requires op.RedeemOp? && op.consume && out.Yielded? ==> op.token !in s'.tokens
    ensures TokensMove(lim, s, op, now, s', out)
  {
  }

  lemma {:induction false} StoredOrDropped(lim: Limits, s: State, op: Op, now: nat, s': State, out: Out)
    requires IsIssue(op)
    requires if out.Issued? then
               && out.token in s'.tokens && s'.tokens[out.token] == IssuedEntry(lim, op, now)
               && SubTokens(s'.tokens - {out.token}, s.tokens)
               && (op.IssueBoundOp? ==> !Superseded(s', op.op.owner, op.op.generation))
             else TokensDrop(s, s')
    ensures TokensMove(lim, s, op, now, s', out)
  {
    if out.Issued? {
      StoringIsMove(lim, s, op, now, s', out);
    } else {
      DroppingIsMove(lim, s, op, now, s', out);
    }
  }

  lemma {:induction false} IssuingMovesTokens(lim: Limits, s: State, op: Op, now: nat)
    requires IsIssue(op)
    ensures TokensMove(lim, s, op, now, Perform(lim, s, op, now).0, Perform(lim, s, op, now).1)
  {
    match op {
      case IssueOp(purpose, owner, payload, supply) =>
        IssueStores(lim, s, purpose, owner, payload, None, supply, now);
        var (s', out) := Issue(lim, s, purpose, owner, payload, None, supply, now);
        StoredOrDropped(lim, s, op, now, s', out);
      case IssueBoundOp(o, payload, supply) =>
        IssueStores(lim, s, Confirmation, o.owner, payload, Some(o.generation), supply, now);
        var (s', out) := Issue(lim, s, Confirmation, o.owner, payload, Some(o.generation), supply, now);
        StoredOrDropped(lim, s, op, now, s', out);
      case IssueSelectionBoundOp(o, payload, supply) =>
        SelectionStores(lim, s, o, payload, supply, now);
        var (s', out) := IssueSelectionForOperation(lim, s, o, payload, supply, now);
        StoredOrDropped(lim, s, op, now, s', out);
    }
  }

  lemma {:induction false} OthersMoveTokens(lim: Limits, s: State, op: Op, now: nat)
    requires !IsIssue(op)
    ensures TokensMove(lim, s, op, now, Perform(lim, s, op, now).0, Perform(lim, s, op, now).1)
  {
    var (s', out) := Perform(lim, s, op, now);
    match op {
      case BeginInputOp(owner, kind, payload) => InputDropsTokens(lim, s, owner, kind, payload, None, now);
      case BeginInputBoundOp(o, kind, payload) => InputDropsTokens(lim, s, o.owner, kind, payload, Some(o.generation), now);
      case ConsumeInputOp(owner, kind) => AdvancingDropsTokens(lim, s, owner, kind, now);
      case CancelInputOp(owner) => AdvancingDropsTokens(lim, s, owner, "", now);
      case CancelOwnerOp(owner) => AdvancingDropsTokens(lim, s, owner, "", now);
      case BeginOp(owner) => AdvancingDropsTokens(lim, s, owner, "", now);
      case ClaimOp(owner) => AdvancingDropsTokens(lim, s, owner, "", now);
      case FinishOp(o) => OthersDropTokens(s, o, "", Confirmation, "", false, now);
      case CurrentOp(o) => OthersDropTokens(s, o, "", Confirmation, "", false, now);
      case InputOp(owner) => OthersDropTokens(s, Operation(owner, 0), "", Confirmation, "", false, now);
      case CancelSelectionsOp(o, kind) => OthersDropTokens(s, o, "", Confirmation, kind, false, now);
      case RedeemOp(token, purpose, owner, kind, consume) => OthersDropTokens(s, Operation(owner, 0), token, purpose, kind, consume, now);
      case CancelTokenOp(token, purpose, owner) => OthersDropTokens(s, Operation(owner, 0), token, purpose, "", false, now);
    }
    DroppingIsMove(lim, s, op, now, s', out);
  }

  lemma {:induction false} StepMovesTokens(lim: Limits, s: State, op: Op, now: nat)
    ensures TokensMove(lim, s, op, now, Step(lim, s, op, now).0, Step(lim, s, op, now).1)
  {
    if Rejection(op).Some? {
      DroppingIsMove(lim, s, op, now, s, Rejection(op).value);
    } else if IsIssue(op) {
      IssuingMovesTokens(lim, s, op, now);
    } else {
      OthersMoveTokens(lim, s, op, now);
    }
  }

  // ---------- Histories ----------

  datatype Event = Event(op: Op, now: nat)

  /** A history: the calls, the state before each call and after the last, and what each call returned. */
  datatype History = History(events: seq<Event>, states: seq<State>, outs: seq<Out>)

  ghost predicate IsHistory(lim: Limits, h: History) {
    && |h.states| == |h.events| + 1 && |h.outs| == |h.events|
    && h.states[0] == State(map[], map[], map[], 0)
    && forall i :: 0 <= i < |h.events| ==> (h.states[i + 1], h.outs[i]) == Step(lim, h.states[i], h.events[i].op, h.events[i].now)
  }

  /** After any history the byte total is within the cap and every count within its limit. */
  lemma {:induction false} HistoryStaysBounded(lim: Limits, h: History, i: nat)
    requires IsHistory(lim, h) && i <= |h.events|
    ensures Bounded(lim, h.states[i])
  {
    if i > 0 {
      HistoryStaysBounded(lim, h, i - 1);
      StepKeepsBounds(lim, h.states[i - 1], h.events[i - 1].op, h.events[i - 1].now);
    } else {
      assert UsedBytes(h.states[0]) == 0;
    }
  }

  /** All that the token argument needs to know about a call. */
  ghost predicate Effect(lim: Limits, s: State, ev: Event, s': State, out: Out) {
    && TokensMove(lim, s, ev.op, ev.now, s', out)
    && GensMove(s, s')
    && (GensInv(s) ==> GensInv(s'))
    && forall owner: Owner, g: nat :: GensInv(s) && Supersedes(s, ev.op, ev.now, owner) && g <= s.nextGeneration ==> Superseded(s', owner, g)
  }

  lemma {:induction false} StepHasEffect(lim: Limits, s: State, ev: Event)
    ensures Effect(lim, s, ev, Step(lim, s, ev.op, ev.now).0, Step(lim, s, ev.op, ev.now).1)
  {
    StepMovesTokens(lim, s, ev.op, ev.now);
    StepMovesGens(lim, s, ev.op, ev.now);
    forall owner: Owner, g: nat | GensInv(s) && Supersedes(s, ev.op, ev.now, owner) && g <= s.nextGeneration
      ensures Superseded(Step(lim, s, ev.op, ev.now).0, owner, g)
    {
      SupersedingTakesEffect(lim, s, ev.op, ev.now, owner, g);
    }
  }

  ghost predicate HasEffects(lim: Limits, h: History) {
    && |h.states| == |h.events| + 1 && |h.outs| == |h.events|
    && h.states[0] == State(map[], map[], map[], 0)
    && forall i :: 0 <= i < |h.events| ==> Effect(lim, h.states[i], h.events[i], h.states[i + 1], h.outs[i])
  }

  lemma {:induction false} HistoryHasEffects(lim: Limits, h: History)
    requires IsHistory(lim, h)
    ensures HasEffects(lim, h)
  {
    forall i | 0 <= i < |h.events|
      ensures Effect(lim, h.states[i], h.events[i], h.states[i + 1], h.outs[i])
    {
      StepHasEffect(lim, h.states[i], h.events[i]);
    }
  }

  lemma {:induction false} HistoryKeepsGens(lim: Limits, h: History, i: nat)
    requires HasEffects(lim, h) && i <= |h.events|
    ensures GensInv(h.states[i])
  {
    if i > 0 {
      HistoryKeepsGens(lim, h, i - 1);
      assert Effect(lim, h.states[i - 1], h.events[i - 1], h.states[i], h.outs[i - 1]);
    }
  }

  predicate IssuesAt(h: History, i: nat, t: string)
    requires i < |h.events| == |h.outs|
  {
    h.outs[i].Issued? && h.outs[i].token == t && IsIssue(h.events[i].op)
  }

  predicate ConsumesAt(h: History, i: nat, t: string)
    requires i < |h.events| == |h.outs|
  {
    h.events[i].op.RedeemOp? && h.events[i].op.consume && h.events[i].op.token == t && h.outs[i].Yielded?
  }

  predicate SupersedesAt(h: History, i: nat, owner: Owner)
    requires i < |h.events| < |h.states|
  {
    Supersedes(h.states[i], h.events[i].op, h.events[i].now, owner)
  }

  /** Event `i` issued the token as this entry, and it was neither reissued nor consumed since. */
  ghost predicate Origin(lim: Limits, h: History, i: nat, j: nat, t: string, e: TokenEntry)
    requires j <= |h.events| == |h.outs|
  {
    && i < j && IssuesAt(h, i, t) && e == IssuedEntry(lim, h.events[i].op, h.events[i].now)
    && forall n :: i < n < j ==> !IssuesAt(h, n, t) && !ConsumesAt(h, n, t)
  }

  /** For an operation-bound entry: any superseding event since has made its generation stale. */
  ghost predicate BoundHolds(h: History, i: nat, j: nat, e: TokenEntry)
    requires j <= |h.events| < |h.states|
  {
    e.generation != 0 ==>
      && e.generation <= h.states[j].nextGeneration
      && forall n :: i < n < j && SupersedesAt(h, n, e.owner) ==> Superseded(h.states[j], e.owner, e.generation)
  }

  ghost predicate TokenHistory(lim: Limits, h: History, j: nat, t: string, e: TokenEntry)
    requires j <= |h.events| == |h.outs| < |h.states|
  {
    exists i :: Origin(lim, h, i, j, t, e) && BoundHolds(h, i, j, e)
  }

  lemma {:induction false} BoundHoldsLater(lim: Limits, h: History, i: nat, j: nat, e: TokenEntry)
    requires HasEffects(lim, h) && i < j < |h.events| && BoundHolds(h, i, j, e)
    ensures BoundHolds(h, i, j + 1, e)
  {
    var s, s' := h.states[j], h.states[j + 1];
    assert Effect(lim, s, h.events[j], s', h.outs[j]);
    HistoryKeepsGens(lim, h, j);
    if e.generation != 0 {
      forall n | i < n < j + 1 && SupersedesAt(h, n, e.owner)
        ensures Superseded(s', e.owner, e.generation)
      {
        if n < j {
          SupersededStays(s, s', e.owner, e.generation);
        }
      }
    }
  }

  lemma {:induction false} FreshTokenHistory(lim: Limits, h: History, j: nat, t: string)
    requires HasEffects(lim, h) && j < |h.events| && IssuesAt(h, j, t)
    ensures t in h.states[j + 1].tokens && TokenHistory(lim, h, j + 1, t, h.states[j + 1].tokens[t])
  {
    assert Effect(lim, h.states[j], h.events[j], h.states[j + 1], h.outs[j]);
    HistoryKeepsGens(lim, h, j + 1);
    var e := h.states[j + 1].tokens[t];
    assert Origin(lim, h, j, j + 1, t, e);
    assert BoundHolds(h, j, j + 1, e);
  }

  lemma {:induction false} OldTokenHistory(lim: Limits, h: History, j: nat, t: string, e: TokenEntry)
    requires HasEffects(lim, h) && j < |h.events| && TokenHistory(lim, h, j, t, e)
    requires !IssuesAt(h, j, t) && !ConsumesAt(h, j, t)
    ensures TokenHistory(lim, h, j + 1, t, e)
  {
    var i :| Origin(lim, h, i, j, t, e) && BoundHolds(h, i, j, e);
    BoundHoldsLater(lim, h, i, j, e);
    assert Origin(lim, h, i, j + 1, t, e);
  }

  lemma {:induction false} EveryTokenHasHistory(lim: Limits, h: History, j: nat)
    requires HasEffects(lim, h) && j <= |h.events|
    ensures forall t :: t in h.states[j].tokens ==> TokenHistory(lim, h, j, t, h.states[j].tokens[t])
  {
    if j > 0 {
      EveryTokenHasHistory(lim, h, j - 1);
      var s, s' := h.states[j - 1], h.states[j];
      assert Effect(lim, s, h.events[j - 1], s', h.outs[j - 1]);
      forall t | t in s'.tokens
        ensures TokenHistory(lim, h, j, t, s'.tokens[t])
      {
        if IssuesAt(h, j - 1, t) {
          FreshTokenHistory(lim, h, j - 1, t);
        } else {
          OldTokenHistory(lim, h, j - 1, t, s.tokens[t]);
        }
      }
    }
  }

  lemma {:induction false} YieldIsRedeemable(lim: Limits, s: State, op: Op, now: nat)
    requires op.RedeemOp? && Step(lim, s, op, now).1.Yielded?
    ensures op.token in s.tokens && now < s.tokens[op.token].expiresAt
    ensures Step(lim, s, op, now).1.payload == s.tokens[op.token].payload
    ensures Redeemable(s, op.token, op.purpose, op.owner, op.kind)
    ensures op.purpose == Confirmation && s.tokens[op.token].generation != 0 ==>
              Current(Pruned(s, now), Operation(op.owner, s.tokens[op.token].generation))
  {
    assert Redeemable(Pruned(s, now), op.token, op.purpose, op.owner, op.kind);
  }

  /**
   Over any history, a confirmation that yields its payload was issued by one
   earlier call with that owner, kind and payload, has not expired, has not been
   consumed or reissued since, and - if it was bound to an operation - that
   operation's generation is live and current at redemption, and no begin,
   claim, input consumption or cancellation, or owner cancellation of that owner
   has happened in between.
   */
  lemma {:induction false} ConfirmationYieldsOnce(lim: Limits, h: History, j: nat) returns (i: nat)
    requires IsHistory(lim, h) && j < |h.events|
    requires h.events[j].op.RedeemOp? && h.events[j].op.purpose == Confirmation && h.outs[j].Yielded?
    ensures i < j && IssuesAt(h, i, h.events[j].op.token)
    ensures var e := IssuedEntry(lim, h.events[i].op, h.events[i].now);
            && e.purpose == Confirmation && e.owner == h.events[j].op.owner
            && e.payload == h.outs[j].payload && e.payload.kind == h.events[j].op.kind
            && h.events[j].now < e.expiresAt == h.events[i].now + lim.confirmationTTL
    ensures forall n :: i < n < j ==> !IssuesAt(h, n, h.events[j].op.token) && !ConsumesAt(h, n, h.events[j].op.token)
    ensures h.events[i].op.IssueBoundOp? ==>
              && Current(Pruned(h.states[j], h.events[j].now), h.events[i].op.op)
              && forall n :: i < n < j ==> !SupersedesAt(h, n, h.events[j].op.owner)
  {
    HistoryHasEffects(lim, h);
    EveryTokenHasHistory(lim, h, j);
    var s, op := h.states[j], h.events[j].op;
    assert (h.states[j + 1], h.outs[j]) == Step(lim, s, op, h.events[j].now);
    YieldIsRedeemable(lim, s, op, h.events[j].now);
    var e := s.tokens[op.token];
    assert TokenHistory(lim, h, j, op.token, e);
    i :| Origin(lim, h, i, j, op.token, e) && BoundHolds(h, i, j, e);
    if h.events[i].op.IssueBoundOp? {
      IssuedOperationsAreReal(lim, h, i);
      assert !Superseded(s, e.owner, e.generation);
    }
  }

  lemma {:induction false} IssuedOperationsAreReal(lim: Limits, h: History, i: nat)
    requires IsHistory(lim, h) && i < |h.events| && h.events[i].op.IssueBoundOp? && h.outs[i].Issued?
    ensures h.events[i].op.op.generation != 0
  {
    assert (h.states[i + 1], h.outs[i]) == Step(lim, h.states[i], h.events[i].op, h.events[i].now);
    assert Rejection(h.events[i].op).None?;
  }
}
