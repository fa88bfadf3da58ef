/** Commands from the Brain after JSON decoding, and the parser's verdict on them. */
module Commands {
  import opened Interlock
  import opened Numbers

  datatype Status =
    | OK | EMPTY | OVERSIZED | MALFORMED_JSON | NOT_AN_OBJECT | MISSING_FIELD | WRONG_TYPE
    | UNKNOWN_ACTION | INVALID_PHASE | STALE | FUTURE_TIMESTAMP

  datatype ParsedCommand = ParsedCommand(status: Status, phase: Phase, sequenceNumber: int, ageMs: int)

  predicate Actionable(c: ParsedCommand) { c.status.OK? }

  const MAX_PAYLOAD_BYTES: nat := 8192

  /** A field of the decoded object. */
  datatype Field = Absent | Text(s: string) | Integer(n: int) | Other

  datatype Payload =
    | NotJson
    | NotObject
    | Object(action: Field, phase: Field, sequenceNumber: Field, timestamp: Field)

  datatype Limits = Limits(maxAgeMs: int, maxFutureSkewMs: int)

  function PhaseFromString(s: string): (r: (bool, Phase)) {
    if s == "GREEN_NS" then (true, GreenNs)
    else if s == "YELLOW_NS" then (true, YellowNs)
    else if s == "ALL_RED" then (true, AllRed)
    else if s == "GREEN_EW" then (true, GreenEw)
    else if s == "YELLOW_EW" then (true, YellowEw)
    else if s == "GREEN_NS_LEFT" then (true, GreenNsLeft)
    else if s == "GREEN_EW_LEFT" then (true, GreenEwLeft)
    else (false, AllRed)
  }

  /** The name the edge reports for a phase. */
  function PhaseName(p: Phase): string {
    match p
    case AllRed => "ALL_RED"
    case GreenNs => "GREEN_NS"
    case YellowNs => "YELLOW_NS"
    case GreenEw => "GREEN_EW"
    case YellowEw => "YELLOW_EW"
    case GreenNsLeft => "GREEN_NS_LEFT"
    case GreenEwLeft => "GREEN_EW_LEFT"
    case FlashYellowNs => "FLASH_YELLOW_NS"
    case FlashYellowEw => "FLASH_YELLOW_EW"
    case FlashAllRed => "FLASH_ALL_RED"
  }

  /** A command names a phase just as the edge reports it, and the flash patterns cannot be named. */
  lemma NamesRoundTrip(s: string, p: Phase)
    ensures PhaseFromString(s) == (true, p) <==> s == PhaseName(p) && !IsFlash(p)
    ensures PhaseFromString(s).0 <==> exists q :: !IsFlash(q) && s == PhaseName(q)
  {
    if PhaseFromString(s).0 {
      assert s == PhaseName(PhaseFromString(s).1);
    }
  }

  /** A name spells its lamps: the colour first, then the axis, then the turn. */
  lemma NameSpells(p: Phase)
    ensures p in {GreenNs, GreenEw} ==> PhaseName(p) == "GREEN_" + if IsNs(p) then "NS" else "EW"
    ensures p in {GreenNsLeft, GreenEwLeft} ==> PhaseName(p) == "GREEN_" + (if IsNs(p) then "NS" else "EW") + "_LEFT"
    ensures IsYellow(p) ==> PhaseName(p) == "YELLOW_" + if IsNs(p) then "NS" else "EW"
    ensures IsFlash(p) ==> "FLASH_" <= PhaseName(p)
    ensures PhaseName(p) == "ALL_RED" <==> p.AllRed?
  {
  }

  /** Signed 64-bit wrap-around. */
  function Wrap64(n: int): int { (n + TWO_63) % TWO_64 - TWO_63 }

  predicate IsInt64(n: int) { -TWO_63 <= n < TWO_63 }

  function Rejected(status: Status): ParsedCommand { ParsedCommand(status, AllRed, -1, 0) }

  function Parse(limits: Limits, bytes: nat, payload: Payload, nowMs: int): ParsedCommand {
    if bytes == 0 then Rejected(EMPTY)
    else if bytes > MAX_PAYLOAD_BYTES then Rejected(OVERSIZED)
    else
      match payload
      case NotJson => Rejected(MALFORMED_JSON)
      case NotObject => Rejected(NOT_AN_OBJECT)
      case Object(action, phase, seqNo, ts) =>
        if action.Absent? then Rejected(MISSING_FIELD)
        else if !action.Text? then Rejected(WRONG_TYPE)
        else if action.s != "CHANGE_PHASE" then Rejected(UNKNOWN_ACTION)
        else if phase.Absent? then Rejected(MISSING_FIELD)
        else if !phase.Text? then Rejected(WRONG_TYPE)
        else if !PhaseFromString(phase.s).0 then Rejected(INVALID_PHASE)
        else
          var p := PhaseFromString(phase.s).1;
          if seqNo.Absent? then ParsedCommand(MISSING_FIELD, p, -1, 0)
          else if !seqNo.Integer? then ParsedCommand(WRONG_TYPE, p, -1, 0)
          else if ts.Absent? then ParsedCommand(MISSING_FIELD, p, seqNo.n, 0)
          else if !ts.Integer? then ParsedCommand(WRONG_TYPE, p, seqNo.n, 0)
          else
            var age := Wrap64(nowMs - ts.n);
            if age < -limits.maxFutureSkewMs then ParsedCommand(FUTURE_TIMESTAMP, p, seqNo.n, age)
            else if age > limits.maxAgeMs then ParsedCommand(STALE, p, seqNo.n, age)
            else ParsedCommand(OK, p, seqNo.n, age)
  }

  lemma WrapWithin(n: int)
    requires -TWO_64 <= n < TWO_64
    ensures Wrap64(n) == if n < -TWO_63 then n + TWO_64 else if n < TWO_63 then n else n - TWO_64
  {
  }

  /** A payload whose fields are all there and of the right kind. */
  predicate IsComplete(bytes: nat, payload: Payload) {
    && 1 <= bytes <= MAX_PAYLOAD_BYTES && payload.Object?
    && payload.action == Text("CHANGE_PHASE")
    && payload.phase.Text? && PhaseFromString(payload.phase.s).0
    && payload.sequenceNumber.Integer? && payload.timestamp.Integer?
  }

  predicate IsFresh(limits: Limits, ageMs: int) { -limits.maxFutureSkewMs <= ageMs <= limits.maxAgeMs }

  ghost predicate Int64Inputs(payload: Payload, nowMs: int) {
    IsInt64(nowMs) && (payload.Object? && payload.timestamp.Integer? ==> IsInt64(payload.timestamp.n))
  }

  /** A command is actionable exactly when it is complete and its age, wrapped to 64 bits, lies
      in the window; the parser never lets a flash pattern through. */
  lemma ActionableExactlyWhenFresh(limits: Limits, bytes: nat, payload: Payload, nowMs: int)
    requires Int64Inputs(payload, nowMs)
    ensures var c := Parse(limits, bytes, payload, nowMs);
            && (IsComplete(bytes, payload) <==> c.status in {OK, STALE, FUTURE_TIMESTAMP})
            && (Actionable(c) <==> IsComplete(bytes, payload) && -limits.maxFutureSkewMs <= c.ageMs <= limits.maxAgeMs)
            && (IsComplete(bytes, payload) ==>
                  IsInt64(c.ageMs) && (c.ageMs - (nowMs - payload.timestamp.n)) % 0x1_0000_0000_0000_0000 == 0)
            && (Actionable(c) ==> !IsFlash(c.phase) && c.sequenceNumber == payload.sequenceNumber.n)
            && (Actionable(c) ==> payload.phase == Text(PhaseName(c.phase)))
    ensures IsComplete(bytes, payload) && IsInt64(nowMs - payload.timestamp.n) ==>
      var c := Parse(limits, bytes, payload, nowMs);
      && c.ageMs == nowMs - payload.timestamp.n
      && (c.status == STALE <==> c.ageMs > limits.maxAgeMs && c.ageMs >= -limits.maxFutureSkewMs)
  {
    if payload.Object? && payload.timestamp.Integer? {
      WrapWithin(nowMs - payload.timestamp.n);
      if payload.phase.Text? {
        NamesRoundTrip(payload.phase.s, PhaseFromString(payload.phase.s).1);
      }
    }
  }

  ghost predicate NamesPhase(f: Field) { exists p :: !IsFlash(p) && f == Text(PhaseName(p)) }

  /** The fields from the sequence number on are looked at. */
  ghost predicate NamesItsPhase(payload: Payload) {
    payload.Object? && payload.action == Text("CHANGE_PHASE") && NamesPhase(payload.phase)
  }

  /** Which fault is named: the first one met on the way from the size to the age. */
  lemma FirstFaultIsNamed(limits: Limits, bytes: nat, payload: Payload, nowMs: int)
    ensures var s := Parse(limits, bytes, payload, nowMs).status;
            && (s == EMPTY <==> bytes == 0)
            && (s == OVERSIZED <==> bytes > 8192)
            && (s == MALFORMED_JSON <==> 0 < bytes <= 8192 && payload.NotJson?)
            && (s == NOT_AN_OBJECT <==> 0 < bytes <= 8192 && payload.NotObject?)
    ensures 0 < bytes <= 8192 && payload.Object? ==>
      var s := Parse(limits, bytes, payload, nowMs).status;
      var Object(action, phase, seqNo, ts) := payload;
      var verb, named := action == Text("CHANGE_PHASE"), NamesItsPhase(payload);
      && (s == UNKNOWN_ACTION <==> action.Text? && !verb)
      && (s == INVALID_PHASE <==> verb && phase.Text? && !named)
      && (s == MISSING_FIELD <==>
            action.Absent? || (verb && phase.Absent?) || (named && (seqNo.Absent? || (seqNo.Integer? && ts.Absent?))))
      && (s in {OK, STALE, FUTURE_TIMESTAMP} <==> named && seqNo.Integer? && ts.Integer?)
  {
    if payload.Object? && payload.phase.Text? {
      NamesRoundTrip(payload.phase.s, PhaseFromString(payload.phase.s).1);
    }
  }

  /** The clock readings at which no timestamp wraps into the window. */
  predicate SafeClock(limits: Limits, nowMs: int) {
    limits.maxAgeMs - TWO_63 <= nowMs < TWO_63 - limits.maxFutureSkewMs
  }

  /** The limits admit no age at all. */
  predicate EmptyWindow(limits: Limits) { limits.maxAgeMs < -limits.maxFutureSkewMs }

  /** The wrapped age of timestamp ts is judged as the true one. */
  ghost predicate JudgedTruly(limits: Limits, nowMs: int, ts: int) {
    IsFresh(limits, Wrap64(nowMs - ts)) <==> IsFresh(limits, nowMs - ts)
  }

  /** Wrapping changes no verdict, whatever the timestamp, exactly at the safe clock readings, or
      when the limits admit nothing anyway. */
  lemma TrueAgeExactly(limits: Limits, nowMs: int)
    requires IsInt64(nowMs) && IsInt64(limits.maxAgeMs) && IsInt64(-limits.maxFutureSkewMs)
    ensures (forall ts :: IsInt64(ts) ==> JudgedTruly(limits, nowMs, ts)) <==>
            SafeClock(limits, nowMs) || EmptyWindow(limits)
  {
    if SafeClock(limits, nowMs) || EmptyWindow(limits) {
      forall ts | IsInt64(ts)
        ensures JudgedTruly(limits, nowMs, ts)
      {
        WrapWithin(nowMs - ts);
      }
    } else {
      // an ancient timestamp looks just near enough, or one of the far future just recent enough
      var ts := if nowMs >= TWO_63 - limits.maxFutureSkewMs then nowMs + limits.maxFutureSkewMs - TWO_64
                else nowMs - limits.maxAgeMs + TWO_64;
      WrapWithin(nowMs - ts);
      assert IsInt64(ts) && !JudgedTruly(limits, nowMs, ts);
    }
  }
}
