/**
 * Which services a session and an unlocked level open (core/uds_access_table.c and the
 * check the server makes with it).
 */
module AccessTable {
  import opened Bytes
  import opened Types
  import Security
  import Session

  const DEFAULT_BIT: byte := 1
  const PROGRAMMING_BIT: byte := 2
  const EXTENDED_BIT: byte := 4
  const SAFETY_BIT: byte := 8
  const ALL: byte := 15
  const NON_DEFAULT: byte := 14

  datatype Row = Row(sid: u8, mask: byte, level: u8, requireUnlocked: bool)

  type table = t: seq<Row> | |t| <= 255 witness []

  /** acl_session_to_bit */
  function Bit(session: Session.Kind): byte {
    match session
    case Default => DEFAULT_BIT
    case Programming => PROGRAMMING_BIT
    case Extended => EXTENDED_BIT
    case SafetySystem => SAFETY_BIT
  }

  predicate Covers(row: Row, session: Session.Kind) {
    row.mask & Bit(session) != 0
  }

  /** The first row from i on that names the service. */
  function FirstFrom(rows: table, sid: u8, i: nat): Option<Row>
    requires i <= |rows|
    decreases |rows| - i
  {
    if i == |rows| then None
    else if rows[i].sid == sid then Some(rows[i])
    else FirstFrom(rows, sid, i + 1)
  }

  /**
   * What a row demands of the active security level; no row at all is refused, unless the
   * build allows unlisted services.
   */
  function Demand(row: Option<Row>, unlisted: bool, activeLevel: u8): Status {
    if row.None? then if unlisted then Ok else ErrServiceNotSupportedInSession
    else if row.value.requireUnlocked && activeLevel != row.value.level then ErrSecAccessDenied
    else Ok
  }

  /** The server's decision about a service. */
  function Decision(rows: table, unlisted: bool, sid: u8, session: Session.Kind, activeLevel: u8): Status {
    var row := FirstFrom(rows, sid, 0);
    if row.Some? && !Covers(row.value, session) then ErrServiceNotSupportedInSession
    else Demand(row, unlisted, activeLevel)
  }

  /** uds_access_table_lookup: the first row with the service decides, whatever its mask. */
  method Lookup(rows: table, sid: u8, session: Session.Kind) returns (row: Option<Row>)
    ensures row == FirstFrom(rows, sid, 0)
  {
    if |rows| == 0 {
      return None;
    }
    row := None;
    var i := 0;
    while i < |rows|
      invariant i <= |rows| && FirstFrom(rows, sid, 0) == FirstFrom(rows, sid, i)
    {
      if rows[i].sid != sid {
        i := i + 1;
        continue;
      }
      if Covers(rows[i], session) {
        return Some(rows[i]);
      }
      return Some(rows[i]);
    }
    row := None;
  }

  /** uds_access_table_enforce; unlisted: the switch UDS_ACL_ALLOW_UNLISTED_SERVICES. */
  method Enforce(row: Option<Row>, unlisted: bool, security: Security.SecurityAccess) returns (status: Status)
    requires security.initialized
    ensures var demand := Demand(row, unlisted, security.activeLevel);
      status == if demand == ErrSecAccessDenied then ErrSecNotUnlocked else demand
  {
    if row == None {
      if unlisted {
        return Ok;
      }
      return ErrServiceNotSupportedInSession;
    }
    if !row.value.requireUnlocked {
      return Ok;
    }
    var _, unlocked := security.IsUnlocked(row.value.level);
    if !unlocked {
      return ErrSecNotUnlocked;
    }
    status := Ok;
  }

  /** srv_check_access_rights */
  method CheckAccessRights(rows: table, unlisted: bool, sid: u8, session: Session.Context,
                           security: Security.SecurityAccess) returns (status: Status)
    requires security.initialized
    ensures status == if session.initialized then Decision(rows, unlisted, sid, session.active, security.activeLevel)
                      else ErrConditionsNotMet
  {
    hide Covers, FirstFrom;
    if !session.initialized {
      return ErrConditionsNotMet;
    }
    var row := Lookup(rows, sid, session.active);
    if row != None {
      if !Covers(row.value, session.active) {
        return ErrServiceNotSupportedInSession;
      }
    }
    status := Enforce(row, unlisted, security);
    if status == ErrSecNotUnlocked {
      return ErrSecAccessDenied;
    }
  }

  // ---- The scan the header describes, and when the code agrees with it ----

  /** The first row from i on that names the service and covers the session. */
  function FirstCoveringFrom(rows: table, sid: u8, session: Session.Kind, i: nat): Option<Row>
    requires i <= |rows|
    decreases |rows| - i
  {
    if i == |rows| then None
    else if rows[i].sid == sid && Covers(rows[i], session) then Some(rows[i])
    else FirstCoveringFrom(rows, sid, session, i + 1)
  }

  function DocumentedDecision(rows: table, unlisted: bool, sid: u8, session: Session.Kind, activeLevel: u8): Status {
    Demand(FirstCoveringFrom(rows, sid, session, 0), unlisted, activeLevel)
  }

  ghost predicate IsFirst(rows: table, sid: u8, i: int) {
    0 <= i < |rows| && rows[i].sid == sid && forall k :: 0 <= k < i ==> rows[k].sid != sid
  }

  /** If any row of the service covers the session, the service's first row does. */
  ghost predicate NoneHidden(rows: table, sid: u8, session: Session.Kind) {
    forall i, j :: 0 <= j < |rows| && rows[j].sid == sid && Covers(rows[j], session) && IsFirst(rows, sid, i) ==>
      Covers(rows[i], session)
  }

  /** The service's first row, if it has one, covers the session. */
  ghost predicate FirstCovers(rows: table, sid: u8, session: Session.Kind) {
    forall i :: IsFirst(rows, sid, i) ==> Covers(rows[i], session)
  }

  lemma {:induction false} FirstIsFirst(rows: table, sid: u8, i: nat)
    requires i <= |rows|
    ensures FirstFrom(rows, sid, i).None? ==> forall j :: i <= j < |rows| ==> rows[j].sid != sid
    ensures FirstFrom(rows, sid, i).Some? ==>
      exists j :: i <= j < |rows| && rows[j] == FirstFrom(rows, sid, i).value && rows[j].sid == sid &&
                  forall k :: i <= k < j ==> rows[k].sid != sid
    decreases |rows| - i
  {
    if i < |rows| && rows[i].sid != sid {
      FirstIsFirst(rows, sid, i + 1);
    }
  }

  lemma {:induction false} FirstCoveringIsFirst(rows: table, sid: u8, session: Session.Kind, i: nat)
    requires i <= |rows|
    ensures var r := FirstCoveringFrom(rows, sid, session, i);
      (r.None? ==> forall j :: i <= j < |rows| && rows[j].sid == sid ==> !Covers(rows[j], session)) &&
      (r.Some? ==> exists j :: i <= j < |rows| && rows[j] == r.value &&
                               rows[j].sid == sid && Covers(rows[j], session) &&
                               forall k :: i <= k < j && rows[k].sid == sid ==> !Covers(rows[k], session))
    decreases |rows| - i
  {
    hide Covers;
    if i < |rows| && !(rows[i].sid == sid && Covers(rows[i], session)) {
      FirstCoveringIsFirst(rows, sid, session, i + 1);
    }
  }

  /**
   * The code decides as documented exactly when no covering row is hidden; if unlisted
   * services are allowed, exactly when the first row covers the session.
   */
  lemma AgreesExactlyWhen(rows: table, unlisted: bool, sid: u8, session: Session.Kind, activeLevel: u8)
    ensures Decision(rows, unlisted, sid, session, activeLevel) ==
            DocumentedDecision(rows, unlisted, sid, session, activeLevel)
      <==> if unlisted then FirstCovers(rows, sid, session) else NoneHidden(rows, sid, session)
  {
    hide Covers, FirstFrom, FirstCoveringFrom;
    FirstIsFirst(rows, sid, 0);
    FirstCoveringIsFirst(rows, sid, session, 0);
    var row := FirstFrom(rows, sid, 0);
    var covering := FirstCoveringFrom(rows, sid, session, 0);
    if row.Some? {
      var i :| 0 <= i < |rows| && rows[i] == row.value && IsFirst(rows, sid, i);
      assert FirstCovers(rows, sid, session) <==> Covers(rows[i], session);
    }
    if row.Some? && covering.Some? {
      var i :| 0 <= i < |rows| && rows[i] == row.value && IsFirst(rows, sid, i);
      var j :| 0 <= j < |rows| && rows[j] == covering.value && rows[j].sid == sid && Covers(rows[j], session) &&
               forall k :: 0 <= k < j && rows[k].sid == sid ==> !Covers(rows[k], session);
      assert NoneHidden(rows, sid, session) <==> Covers(rows[i], session);
    }
  }

  /** The decision speaks with three voices only. */
  lemma DecisionStatus(rows: table, unlisted: bool, sid: u8, session: Session.Kind, activeLevel: u8)
    ensures Decision(rows, unlisted, sid, session, activeLevel) in
      {Ok, ErrSecAccessDenied, ErrServiceNotSupportedInSession}
  {}

  /**
   * What the first row i of the service decides, or its absence: no access outside the
   * sessions of the mask, none without the level it asks for, else access.
   */
  lemma FirstRowDecides(rows: table, unlisted: bool, sid: u8, session: Session.Kind, activeLevel: u8, i: nat)
    requires i <= |rows| && (forall k :: 0 <= k < i ==> rows[k].sid != sid) && (i < |rows| ==> rows[i].sid == sid)
    ensures Decision(rows, unlisted, sid, session, activeLevel) ==
      if i == |rows| then if unlisted then Ok else ErrServiceNotSupportedInSession
      else if rows[i].mask & SessionBit(session) == 0 then ErrServiceNotSupportedInSession
      else if rows[i].requireUnlocked && activeLevel != rows[i].level then ErrSecAccessDenied
      else Ok
  {
    hide Covers, FirstFrom;
    FirstIsFirst(rows, sid, 0);
    if i < |rows| {
      BitOfSession(rows[i], session);
    }
  }

  /** Bit code - 1 for the session codes 1 to 4 of ISO 14229-1. */
  function SessionBit(session: Session.Kind): byte {
    match session
    case Default => 0x01
    case Programming => 0x02
    case Extended => 0x04
    case SafetySystem => 0x08
  }

  lemma BitOfSession(row: Row, session: Session.Kind)
    ensures Covers(row, session) <==> row.mask & SessionBit(session) != 0
  {}

  const SHADOWED: table := [Row(0x22, PROGRAMMING_BIT, 1, true), Row(0x22, EXTENDED_BIT, 0, false)]

  /** A table on which it does not: the second row is never reached. */
  lemma HiddenRow()
    ensures Decision(SHADOWED, false, 0x22, Session.Extended, 0) == ErrServiceNotSupportedInSession
    ensures DocumentedDecision(SHADOWED, false, 0x22, Session.Extended, 0) == Ok
  {
    MaskMeaning(SHADOWED[0], Session.Extended);
    MaskMeaning(SHADOWED[1], Session.Extended);
    hide Covers;
    assert FirstCoveringFrom(SHADOWED, 0x22, Session.Extended, 1) == Some(SHADOWED[1]);
  }

  lemma MaskMeaning(row: Row, session: Session.Kind)
    ensures row.mask == ALL ==> Covers(row, session)
    ensures row.mask == NON_DEFAULT ==> (Covers(row, session) <==> session != Session.Default)
    ensures row.mask == PROGRAMMING_BIT ==> (Covers(row, session) <==> session == Session.Programming)
    ensures row.mask == EXTENDED_BIT ==> (Covers(row, session) <==> session == Session.Extended)
  {}

  // ---- The built-in table ----

  const DEFAULT_TABLE: table := [
    Row(0x10, ALL, 0, false),
    Row(0x11, ALL, 0, false),
    Row(0x14, NON_DEFAULT, 0, false),
    Row(0x19, ALL, 0, false),
    Row(0x22, ALL, 0, false),
    Row(0x2A, NON_DEFAULT, 0, false),
    Row(0x27, NON_DEFAULT, 0, false),
    Row(0x28, NON_DEFAULT, 0, false),
    Row(0x2E, NON_DEFAULT, 1, true),
    Row(0x2F, NON_DEFAULT, 1, true),
    Row(0x3E, ALL, 0, false),
    Row(0x85, NON_DEFAULT, 0, false),
    Row(0x34, PROGRAMMING_BIT, 1, true),
    Row(0x35, PROGRAMMING_BIT, 1, true),
    Row(0x36, PROGRAMMING_BIT, 1, true),
    Row(0x37, PROGRAMMING_BIT, 1, true),
    Row(0x23, PROGRAMMING_BIT, 1, true),
    Row(0x3D, PROGRAMMING_BIT, 1, true),
    Row(0x31, ALL, 0, false)
  ]

  const OPEN_EVERYWHERE: set<u8> := {0x10, 0x11, 0x19, 0x22, 0x31, 0x3E}
  const OUTSIDE_DEFAULT: set<u8> := {0x14, 0x27, 0x28, 0x2A, 0x85}
  const OUTSIDE_DEFAULT_UNLOCKED: set<u8> := {0x2E, 0x2F}
  const PROGRAMMING_UNLOCKED: set<u8> := {0x23, 0x34, 0x35, 0x36, 0x37, 0x3D}

  /** What the built-in table opens, as a policy. */
  lemma DefaultPolicy(unlisted: bool, sid: u8, session: Session.Kind, activeLevel: u8)
    ensures Decision(DEFAULT_TABLE, unlisted, sid, session, activeLevel) == Ok <==>
      || sid in OPEN_EVERYWHERE
      || (sid in OUTSIDE_DEFAULT && session != Session.Default)
      || (sid in OUTSIDE_DEFAULT_UNLOCKED && session != Session.Default && activeLevel == 1)
      || (sid in PROGRAMMING_UNLOCKED && session == Session.Programming && activeLevel == 1)
      || (unlisted && sid !in OPEN_EVERYWHERE + OUTSIDE_DEFAULT + OUTSIDE_DEFAULT_UNLOCKED + PROGRAMMING_UNLOCKED)
  {
    hide Covers, FirstFrom;
    FirstIsFirst(DEFAULT_TABLE, sid, 0);
    var row := FirstFrom(DEFAULT_TABLE, sid, 0);
    if row.Some? {
      MaskMeaning(row.value, session);
    } else {
      NotListed(sid);
    }
  }

  lemma NotListed(sid: u8)
    requires forall j :: 0 <= j < |DEFAULT_TABLE| ==> DEFAULT_TABLE[j].sid != sid
    ensures sid !in OPEN_EVERYWHERE && sid !in OUTSIDE_DEFAULT
    ensures sid !in OUTSIDE_DEFAULT_UNLOCKED && sid !in PROGRAMMING_UNLOCKED
  {
    var t := DEFAULT_TABLE;
    assert t[0].sid != sid && t[1].sid != sid && t[2].sid != sid && t[3].sid != sid && t[4].sid != sid;
    assert t[5].sid != sid && t[6].sid != sid && t[7].sid != sid && t[8].sid != sid && t[9].sid != sid;
    assert t[10].sid != sid && t[11].sid != sid && t[12].sid != sid && t[13].sid != sid && t[14].sid != sid;
    assert t[15].sid != sid && t[16].sid != sid && t[17].sid != sid && t[18].sid != sid;
  }
}
