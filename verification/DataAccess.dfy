/** The checks a data-access decision passes before it is used, and the call to the authorizer
    that hands decisions out. */
module DataAccess {
  import opened Wrappers
  import opened Text
  import opened DecisionStore

  const ORGANIZATION := 3
  const RELATION := 6
  const ALL := 8

  datatype Request = Request(resourceKey: string, action: string, appId: string, tenantId: string)

  datatype RequestFault = ResourceKeyEmpty | ActionEmpty

  datatype RowFault =
    | DimensionUnspecified | RefEmpty | RefRepeated | AllWithRefs
    | RelationKeyMissing | RelationKeyUnexpected | DescendantsUnexpected

  datatype FieldFault = Incomplete | ActionUnspecified | ActionRepeated

  datatype Fault =
    | RequestInvalid(request: RequestFault)
    | KeyOrActionEmpty
    | Mismatch
    | Denied
    | ExpiryMissing
    | Expired
    | RowInvalid(row: nat, rowFault: RowFault)
    | FieldInvalid(field: nat, fieldFault: FieldFault)

  // ----- Lists without empty or repeated items -----

  /** Item `k` is empty, or repeats an earlier one. */
  ghost predicate BadItem<E, T>(items: seq<E>, canon: E -> T, empty: T, k: nat)
    requires k < |items|
  {
    canon(items[k]) == empty || exists j :: 0 <= j < k && canon(items[j]) == canon(items[k])
  }

  ghost predicate CleanUpTo<E, T>(items: seq<E>, canon: E -> T, empty: T, n: nat)
    requires n <= |items|
  {
    forall k :: 0 <= k < n ==> !BadItem(items, canon, empty, k)
  }

  ghost predicate Clean<E, T>(items: seq<E>, canon: E -> T, empty: T) {
    CleanUpTo(items, canon, empty, |items|)
  }

  ghost predicate FirstBadAt<E, T>(items: seq<E>, canon: E -> T, empty: T, k: nat)
    requires k < |items|
  {
    BadItem(items, canon, empty, k) && CleanUpTo(items, canon, empty, k)
  }

  /** The first bad item is empty, or it is a repeated one, as `isEmpty` says. */
  ghost predicate FirstBad<E, T>(items: seq<E>, canon: E -> T, empty: T, isEmpty: bool) {
    exists k :: 0 <= k < |items| && FirstBadAt(items, canon, empty, k) && (canon(items[k]) == empty <==> isEmpty)
  }

  lemma CleanMeansDistinct<E, T>(items: seq<E>, canon: E -> T, empty: T)
    ensures Clean(items, canon, empty) <==>
      && (forall k :: 0 <= k < |items| ==> canon(items[k]) != empty)
      && (forall j, k :: 0 <= j < k < |items| ==> canon(items[j]) != canon(items[k]))
  {
    if Clean(items, canon, empty) {
      forall k | 0 <= k < |items| ensures canon(items[k]) != empty {
        assert !BadItem(items, canon, empty, k);
      }
      forall j, k | 0 <= j < k < |items| ensures canon(items[j]) != canon(items[k]) {
        assert !BadItem(items, canon, empty, k);
      }
    }
  }

  /** A list is clean, or its first bad item is empty, or repeated: one of the three. */
  lemma CleanOrFirstBad<E, T>(items: seq<E>, canon: E -> T, empty: T)
    ensures Clean(items, canon, empty) <==>
      !FirstBad(items, canon, empty, true) && !FirstBad(items, canon, empty, false)
    ensures !(FirstBad(items, canon, empty, true) && FirstBad(items, canon, empty, false))
  {
    if k :| 0 <= k < |items| && BadItem(items, canon, empty, k) {
      var first := LeastBad(items, canon, empty, k);
      assert FirstBad(items, canon, empty, canon(items[first]) == empty);
      forall i | 0 <= i < |items| && FirstBadAt(items, canon, empty, i) ensures i == first {
      }
    }
  }

  lemma {:induction false} LeastBad<E, T>(items: seq<E>, canon: E -> T, empty: T, n: nat) returns (k: nat)
    requires n < |items| && BadItem(items, canon, empty, n)
    ensures k < |items| && FirstBadAt(items, canon, empty, k)
  {
    k := n;
    if j :| 0 <= j < n && BadItem(items, canon, empty, j) {
      k := LeastBad(items, canon, empty, j);
    }
  }

  /** The loop over the references of a row, and over the actions of a field. */
  method CheckItems<E, T(==)>(items: array<E>, canon: E -> T, empty: T) returns (bad: Option<bool>)
    ensures match bad
      case None => Clean(items[..], canon, empty)
      case Some(isEmpty) => FirstBad(items[..], canon, empty, isEmpty)
  {
    ghost var all := items[..];
    var seen := {};
    for k := 0 to items.Length
      invariant CleanUpTo(all, canon, empty, k)
      invariant forall j :: 0 <= j < k ==> canon(all[j]) in seen
      invariant forall x :: x in seen ==> exists j :: 0 <= j < k && canon(all[j]) == x
    {
      var item := canon(items[k]);
      if item == empty || item in seen {
        assert FirstBadAt(all, canon, empty, k);
        return Some(item == empty);
      }
      seen := seen + {item};
    }
    bad := None;
  }

  // ----- Rows and fields -----

  type RowValue = EntryValue<RowHead, string>
  type FieldValue = EntryValue<string, nat>

  function Itself(action: nat): nat { action }

  ghost predicate RowWellFormed(r: RowValue) {
    && r.head.dimension != 0
    && Clean(r.items, Trim, "")
    && (r.head.dimension == ALL ==> r.items == [])
    && (r.head.dimension == RELATION <==> !Blank(r.head.relationKey))
    && (r.head.includeDescendants ==> r.head.dimension == ORGANIZATION)
  }

  /** What is wrong with a row; of several faults, the one that the checks meet first. */
  ghost predicate RowFails(r: RowValue, f: RowFault) {
    var RowHead(dimension, descendants, relationKey) := r.head;
    var clean := dimension != 0 && Clean(r.items, Trim, "");
    var listed := clean && (dimension == ALL ==> r.items == []);
    match f
    case DimensionUnspecified => dimension == 0
    case RefEmpty => dimension != 0 && FirstBad(r.items, Trim, "", true)
    case RefRepeated => dimension != 0 && FirstBad(r.items, Trim, "", false)
    case AllWithRefs => clean && !listed
    case RelationKeyMissing => listed && dimension == RELATION && Blank(relationKey)
    case RelationKeyUnexpected => listed && dimension != RELATION && !Blank(relationKey)
    case DescendantsUnexpected =>
      listed && (dimension == RELATION <==> !Blank(relationKey)) && descendants && dimension != ORGANIZATION
  }

  ghost predicate FieldWellFormed(f: FieldValue) {
    !Blank(f.head) && f.items != [] && Clean(f.items, Itself, 0)
  }

  ghost predicate FieldFails(f: FieldValue, fault: FieldFault) {
    var complete := !Blank(f.head) && f.items != [];
    match fault
    case Incomplete => !complete
    case ActionUnspecified => complete && FirstBad(f.items, Itself, 0, true)
    case ActionRepeated => complete && FirstBad(f.items, Itself, 0, false)
  }

  lemma RowVerdict(r: RowValue, f: RowFault, f': RowFault)
    ensures RowFails(r, f) ==> !RowWellFormed(r)
    ensures RowFails(r, f) && RowFails(r, f') ==> f == f'
  {
    CleanOrFirstBad(r.items, Trim, "");
  }

  lemma FieldVerdict(v: FieldValue, f: FieldFault, f': FieldFault)
    ensures FieldFails(v, f) ==> !FieldWellFormed(v)
    ensures FieldFails(v, f) && FieldFails(v, f') ==> f == f'
  {
    CleanOrFirstBad(v.items, Itself, 0);
  }

  /** A well-formed row in its own terms: dimension 8 has no references, dimension 6 and no other has a
      relation key, and only dimension 3 includes descendants. */
  lemma WellFormedRowExactly(r: RowValue)
    ensures RowWellFormed(r) <==>
      && r.head.dimension != 0
      && (forall i :: 0 <= i < |r.items| ==> Trim(r.items[i]) != "")
      && (forall i, j :: 0 <= i < j < |r.items| ==> Trim(r.items[i]) != Trim(r.items[j]))
      && (r.head.dimension == 8 ==> |r.items| == 0)
      && (if r.head.dimension == 6 then Trim(r.head.relationKey) != "" else Trim(r.head.relationKey) == "")
      && (r.head.includeDescendants ==> r.head.dimension == 3)
  {
    CleanMeansDistinct(r.items, Trim, "");
  }

  /** Which fault of a row is reported. */
  lemma RowFaultExactly(r: RowValue, f: RowFault)
    requires RowFails(r, f)
    ensures
      var dimension, refs := r.head.dimension, f.RefEmpty? || f.RefRepeated?;
      && (f == DimensionUnspecified <==> dimension == 0)
      && (refs <==> dimension != 0 && !Clean(r.items, Trim, ""))
      && (dimension != 0 && !refs ==>
        f == if dimension == 8 && |r.items| > 0 then AllWithRefs
             else if dimension == 6 && Trim(r.head.relationKey) == "" then RelationKeyMissing
             else if dimension != 6 && Trim(r.head.relationKey) != "" then RelationKeyUnexpected
             else DescendantsUnexpected)
  {
    CleanOrFirstBad(r.items, Trim, "");
  }

  /** A well-formed field has a key and at least one action, and its actions are specified and distinct. */
  lemma WellFormedFieldExactly(f: FieldValue)
    ensures FieldWellFormed(f) <==>
      && Trim(f.head) != "" && |f.items| > 0
      && (forall i :: 0 <= i < |f.items| ==> f.items[i] != 0)
      && (forall i, j :: 0 <= i < j < |f.items| ==> f.items[i] != f.items[j])
  {
    CleanMeansDistinct(f.items, Itself, 0);
  }

  method CheckRow(row: RowConstraint, ghost v: RowValue) returns (fault: Option<RowFault>)
    requires row.head == v.head && row.items[..] == v.items
    ensures match fault
      case None => RowWellFormed(v)
      case Some(f) => RowFails(v, f)
  {
    var RowHead(dimension, descendants, relationKey) := row.head;
    if dimension == 0 {
      return Some(DimensionUnspecified);
    }
    var bad := CheckItems(row.items, Trim, "");
    if bad == Some(true) {
      return Some(RefEmpty);
    } else if bad == Some(false) {
      return Some(RefRepeated);
    } else if dimension == ALL && row.items.Length != 0 {
      return Some(AllWithRefs);
    } else if dimension == RELATION && Trim(relationKey) == "" {
      return Some(RelationKeyMissing);
    } else if dimension != RELATION && Trim(relationKey) != "" {
      return Some(RelationKeyUnexpected);
    } else if descendants && dimension != ORGANIZATION {
      return Some(DescendantsUnexpected);
    }
    return None;
  }

  /** validateRowConstraints: the first row that is not well formed, and its fault. */
  method ValidateRowConstraints(rows: array<RowConstraint>, ghost v: seq<RowValue>)
    returns (fault: Option<(nat, RowFault)>)
    requires Reads(rows, v)
    ensures match fault
      case None => forall i :: 0 <= i < |v| ==> RowWellFormed(v[i])
      case Some((i, f)) => i < |v| && RowFails(v[i], f) && forall j :: 0 <= j < i ==> RowWellFormed(v[j])
  {
    for i := 0 to rows.Length
      invariant forall j :: 0 <= j < i ==> RowWellFormed(v[j])
    {
      var f := CheckRow(rows[i], v[i]);
      match f
      case None =>
      case Some(x) => return Some((i, x));
    }
    fault := None;
  }

  /** validateFieldActions: the first field that is not well formed, and its fault. */
  method ValidateFieldActions(fields: array<FieldGrant>, ghost v: seq<FieldValue>)
    returns (fault: Option<(nat, FieldFault)>)
    requires Reads(fields, v)
    ensures match fault
      case None => forall i :: 0 <= i < |v| ==> FieldWellFormed(v[i])
      case Some((i, f)) => i < |v| && FieldFails(v[i], f) && forall j :: 0 <= j < i ==> FieldWellFormed(v[j])
  {
    for i := 0 to fields.Length
      invariant forall j :: 0 <= j < i ==> FieldWellFormed(v[j])
    {
      if Trim(fields[i].head) == "" || fields[i].items.Length == 0 {
        return Some((i, Incomplete));
      }
      var bad := CheckItems(fields[i].items, Itself, 0);
      match bad
      case None =>
      case Some(isZero) => return Some((i, if isZero then ActionUnspecified else ActionRepeated));
    }
    fault := None;
  }

  // ----- Decisions -----

  ghost predicate RequestFails(r: Request, f: RequestFault) {
    match f
    case ResourceKeyEmpty => Blank(r.resourceKey)
    case ActionEmpty => !Blank(r.resourceKey) && Blank(r.action)
  }

  ghost predicate RequestValid(r: Request) {
    !Blank(r.resourceKey) && !Blank(r.action)
  }

  method ValidateRequest(r: Request) returns (fault: Option<RequestFault>)
    ensures match fault
      case None => RequestValid(r)
      case Some(f) => RequestFails(r, f)
  {
    if Trim(r.resourceKey) == "" {
      return Some(ResourceKeyEmpty);
    } else if Trim(r.action) == "" {
      return Some(ActionEmpty);
    }
    return None;
  }

  /** The decision answers exactly this request and allows it. */
  ghost predicate Grants(v: DecisionValue, r: Request) {
    RequestValid(r) && v.resourceKey == r.resourceKey && v.action == r.action && v.allowed
  }

  ghost predicate WellFormed(v: DecisionValue) {
    && (forall i :: 0 <= i < |v.rows| ==> RowWellFormed(v.rows[i]))
    && (forall i :: 0 <= i < |v.fields| ==> FieldWellFormed(v.fields[i]))
  }

  /** A decision that may be used at an instant. */
  ghost predicate Acceptable(v: DecisionValue, r: Request, at: int) {
    Grants(v, r) && v.expiresAt != 0 && at < v.expiresAt && WellFormed(v)
  }

  ghost predicate Fails(v: DecisionValue, r: Request, at: int, f: Fault) {
    var named := RequestValid(r) && !Blank(v.resourceKey) && !Blank(v.action);
    var matching := named && v.resourceKey == r.resourceKey && v.action == r.action;
    var current := Grants(v, r) && v.expiresAt != 0 && at < v.expiresAt;
    match f
    case RequestInvalid(x) => RequestFails(r, x)
    case KeyOrActionEmpty => RequestValid(r) && !named
    case Mismatch => named && !matching
    case Denied => matching && !v.allowed
    case ExpiryMissing => Grants(v, r) && v.expiresAt == 0
    case Expired => Grants(v, r) && v.expiresAt != 0 && v.expiresAt <= at
    case RowInvalid(i, x) =>
      current && i < |v.rows| && RowFails(v.rows[i], x) && forall j :: 0 <= j < i ==> RowWellFormed(v.rows[j])
    case FieldInvalid(i, x) =>
      && current && (forall j :: 0 <= j < |v.rows| ==> RowWellFormed(v.rows[j]))
      && i < |v.fields| && FieldFails(v.fields[i], x) && forall j :: 0 <= j < i ==> FieldWellFormed(v.fields[j])
  }

  /** A decision is acceptable, or it has one fault: the cases exclude each other. */
  lemma VerdictIsUnique(v: DecisionValue, r: Request, at: int, f: Fault, f': Fault)
    ensures Fails(v, r, at, f) ==> !Acceptable(v, r, at)
    ensures Fails(v, r, at, f) && Fails(v, r, at, f') ==> f == f'
  {
    match (f, f') {
      case (RowInvalid(i, x), RowInvalid(j, y)) =>
        if Fails(v, r, at, f) && Fails(v, r, at, f') {
          RowVerdict(v.rows[i], x, y);
          RowVerdict(v.rows[j], y, x);
        }
      case (FieldInvalid(i, x), FieldInvalid(j, y)) =>
        if Fails(v, r, at, f) && Fails(v, r, at, f') {
          FieldVerdict(v.fields[i], x, y);
          FieldVerdict(v.fields[j], y, x);
        }
      case (_, _) =>
    }
    if f.RowInvalid? && Fails(v, r, at, f) {
      RowVerdict(v.rows[f.row], f.rowFault, f.rowFault);
    }
    if f.FieldInvalid? && Fails(v, r, at, f) {
      FieldVerdict(v.fields[f.field], f.fieldFault, f.fieldFault);
    }
    if f'.RowInvalid? && Fails(v, r, at, f') {
      RowVerdict(v.rows[f'.row], f'.rowFault, f'.rowFault);
    }
  }

  /** An acceptable decision allows exactly the request that names a resource and an action, has an expiry that
      is still ahead, and has only well-formed rows and fields. */
  lemma AcceptableExactly(v: DecisionValue, r: Request, at: int)
    ensures Acceptable(v, r, at) <==>
      && Trim(r.resourceKey) != "" && Trim(r.action) != ""
      && v.resourceKey == r.resourceKey && v.action == r.action && v.allowed
      && v.expiresAt != 0 && v.expiresAt > at
      && (forall i :: 0 <= i < |v.rows| ==> RowWellFormed(v.rows[i]))
      && (forall i :: 0 <= i < |v.fields| ==> FieldWellFormed(v.fields[i]))
  {
  }

  /** Which fault of a decision is reported: those of the request, of its names, of the match, of the permission
      and of the expiry in this order, and then those of rows before those of fields. */
  lemma FaultExactly(v: DecisionValue, r: Request, at: int, f: Fault)
    requires Fails(v, r, at, f)
    ensures
      if Trim(r.resourceKey) == "" then f == RequestInvalid(ResourceKeyEmpty)
      else if Trim(r.action) == "" then f == RequestInvalid(ActionEmpty)
      else if Trim(v.resourceKey) == "" || Trim(v.action) == "" then f == KeyOrActionEmpty
      else if v.resourceKey != r.resourceKey || v.action != r.action then f == Mismatch
      else if !v.allowed then f == Denied
      else if v.expiresAt == 0 then f == ExpiryMissing
      else if v.expiresAt <= at then f == Expired
      else if exists i :: 0 <= i < |v.rows| && !RowWellFormed(v.rows[i]) then f.RowInvalid?
      else f.FieldInvalid?
  {
    VerdictIsUnique(v, r, at, f, f);
    if f.RowInvalid? {
      RowVerdict(v.rows[f.row], f.rowFault, f.rowFault);
    }
  }

  /** DataAccessDecision.Validate. A zero `now` stands for the clock. */
  method Validate(d: Decision, ghost v: DecisionValue, r: Request, now: int, clock: int) returns (fault: Option<Fault>)
    requires ReadsDecision(d, v)
    ensures
      var at := if now == 0 then clock else now;
      match fault
      case None => Acceptable(v, r, at)
      case Some(f) => Fails(v, r, at, f)
  {
    var requestFault := ValidateRequest(r);
    if requestFault.Some? {
      return Some(RequestInvalid(requestFault.value));
    } else if Trim(d.resourceKey) == "" || Trim(d.action) == "" {
      return Some(KeyOrActionEmpty);
    } else if d.resourceKey != r.resourceKey || d.action != r.action {
      return Some(Mismatch);
    } else if !d.allowed {
      return Some(Denied);
    } else if d.expiresAt == 0 {
      return Some(ExpiryMissing);
    }
    var at := if now == 0 then clock else now;
    if d.expiresAt <= at {
      return Some(Expired);
    }
    var rowFault := ValidateRowConstraints(d.rows, v.rows);
    if rowFault.Some? {
      return Some(RowInvalid(rowFault.value.0, rowFault.value.1));
    }
    var fieldFault := ValidateFieldActions(d.fields, v.fields);
    if fieldFault.Some? {
      return Some(FieldInvalid(fieldFault.value.0, fieldFault.value.1));
    }
    return None;
  }

  predicate IsExpired(d: Decision, now: int, clock: int) {
    d.expiresAt == 0 || d.expiresAt <= if now == 0 then clock else now
  }

  lemma ExpiredExactly(d: Decision, now: int, clock: int)
    ensures d.expiresAt == 0 ==> IsExpired(d, now, clock)
    ensures d.expiresAt != 0 && now != 0 ==> (IsExpired(d, now, clock) <==> d.expiresAt <= now)
    ensures d.expiresAt != 0 && now == 0 ==> (IsExpired(d, now, clock) <==> d.expiresAt <= clock)
  {
  }

  /** A decision accepted once is accepted until it expires, and from then on it is expired. */
  lemma AcceptedUntilExpiry(d: Decision, v: DecisionValue, r: Request, at: int, later: int, clock: int, f: Fault)
    requires ReadsDecision(d, v) && Acceptable(v, r, at) && later != 0
    ensures Acceptable(v, r, later) <==> !IsExpired(d, later, clock)
    ensures Acceptable(v, r, later) <==> later < v.expiresAt
    ensures Fails(v, r, later, f) ==> f == Expired
  {
    assert Acceptable(v, r, later) || Fails(v, r, later, Expired);
    VerdictIsUnique(v, r, later, f, Expired);
  }

  // ----- The authorizer -----

  datatype Answer = Failed(error: string) | Decided(decision: Decision)

  datatype AuthorizeError =
    | AuthorizerMissing
    | BadRequest(request: RequestFault)
    | AuthorizerFailed(error: string)
    | Unacceptable(fault: Fault)

  /** Authorize, with a present authorizer's answer as a parameter. Without an error the caller has
      an acceptable decision of its own: what the authorizer keeps does not share storage with it. */
  method Authorize(answer: Option<Answer>, ghost v: DecisionValue, r: Request, clock: int)
    returns (d: Option<Decision>, error: Option<AuthorizeError>, asked: bool, ghost region: set<object>)
    requires answer.Some? && answer.value.Decided? ==> ReadsDecision(answer.value.decision, v)
    ensures asked <==> answer.Some? && RequestValid(r)
    ensures error.None? <==> answer.Some? && answer.value.Decided? && Acceptable(v, r, clock)
    ensures error.None? ==> d.Some? && fresh(region) && Keeps(d.value, region, v)
    ensures error.Some? ==> match error.value
      case AuthorizerMissing => answer.None? && d.None?
      case BadRequest(f) => answer.Some? && RequestFails(r, f) && d.None?
      case AuthorizerFailed(e) => RequestValid(r) && answer == Some(Failed(e)) && d.None?
      case Unacceptable(f) => Fails(v, r, clock, f) && d.Some? && answer == Some(Decided(d.value))
  {
    region := {};
    match answer
    case None => return None, Some(AuthorizerMissing), false, {};
    case Some(a) =>
      var requestFault := ValidateRequest(r);
      if requestFault.Some? {
        return None, Some(BadRequest(requestFault.value)), false, {};
      }
      match a
      case Failed(e) => return None, Some(AuthorizerFailed(e)), true, {};
      case Decided(decision) =>
        var fault := Validate(decision, v, r, clock, clock);
        if fault.Some? {
          VerdictIsUnique(v, r, clock, fault.value, fault.value);
          return Some(decision), Some(Unacceptable(fault.value)), true, {};
        }
        var copy, added := CloneDecision(decision, v);
        return Some(copy), None, true, added;
  }
}
