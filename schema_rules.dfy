/** The part of zod's object parsing that the poll schemas rely on, over
    JSON bodies. `z.object` reads only the keys it lists (any other key is
    stripped), and the parse fails when any of them breaks its rule. A failed
    parse is recorded as the set of keys with at least one issue: one issue
    per failing key, however many zod raises there. Issue messages and codes
    are not modelled: an issue records only where it was raised. */
module SchemaRules {
  import opened Wrappers
  import opened JsonValues

  /** The keys the poll schemas read. */
  datatype Key =
    | Title | Description | Options | AllowMultipleVotes | ExpiresAt | IsPublic
    | OptionId
    | Page | Limit | Search | Status | SortBy | SortOrderKey

  /** The key's spelling in a JSON body. */
  function Name(k: Key): string {
    match k
    case Title => "title"
    case Description => "description"
    case Options => "options"
    case AllowMultipleVotes => "allowMultipleVotes"
    case ExpiresAt => "expiresAt"
    case IsPublic => "isPublic"
    case OptionId => "optionId"
    case Page => "page"
    case Limit => "limit"
    case Search => "search"
    case Status => "status"
    case SortBy => "sortBy"
    case SortOrderKey => "sortOrder"
  }

  datatype Issue = NotAnObject | InvalidField(key: Key)

  /** An upper length bound (`.max(n)`), or none. */
  datatype Bound = Unbounded | AtMost(max: nat)

  predicate Within(n: nat, b: Bound) {
    b.Unbounded? || n <= b.max
  }

  /** The value under `key`, `None` when the key is absent. */
  function Get(fields: map<string, Json>, key: Key): (v: Option<Json>)
    ensures v.Some? <==> Name(key) in fields
    ensures v.Some? ==> v.value == fields[Name(key)]
  {
    if Name(key) in fields then Some(fields[Name(key)]) else None
  }

  /** `z.string().min(lo).max(hi)` on a present value. */
  predicate StringRule(v: Json, lo: nat, hi: Bound) {
    v.JString? && lo <= |v.s| && Within(|v.s|, hi)
  }

  /** A required string field. */
  function RequiredString(v: Option<Json>, lo: nat, hi: Bound): Option<string> {
    if v.Some? && StringRule(v.value, lo, hi) then Some(v.value.s) else None
  }

  /** `.optional()` string field: an absent key is fine, `null` is not. The
      outer `None` is the issue, `Some(None)` the absent value. */
  function OptionalString(v: Option<Json>, hi: Bound): Option<Option<string>> {
    if v.None? then Some(None)
    else if StringRule(v.value, 0, hi) then Some(Some(v.value.s))
    else None
  }

  /** `z.boolean().default(d)`. */
  function BooleanOr(v: Option<Json>, d: bool): Option<bool> {
    if v.None? then Some(d)
    else if v.value.JBool? then Some(v.value.b)
    else None
  }

  /** `z.boolean().optional()`. */
  function OptionalBoolean(v: Option<Json>): Option<Option<bool>> {
    if v.None? then Some(None)
    else if v.value.JBool? then Some(Some(v.value.b))
    else None
  }

  /** `z.array(z.string().min(itemMin)).min(lo).max(hi)`. */
  predicate StringArrayRule(v: Option<Json>, lo: nat, hi: Bound, itemMin: nat) {
    && v.Some? && v.value.JArray?
    && lo <= |v.value.items| && Within(|v.value.items|, hi)
    && forall i :: 0 <= i < |v.value.items| ==> StringRule(v.value.items[i], itemMin, Unbounded)
  }

  function StringArray(v: Option<Json>, lo: nat, hi: Bound, itemMin: nat): Option<seq<string>> {
    if StringArrayRule(v, lo, hi, itemMin) then
      Some(seq(|v.value.items|, i requires 0 <= i < |v.value.items| => v.value.items[i].s))
    else None
  }

  /** `z.string().datetime().optional()`, with the format check and the
      conversion to milliseconds given as `parseTime` (`None` for a string
      the format rejects). */
  function OptionalDateTime(v: Option<Json>, parseTime: string -> Option<int>): Option<Option<string>> {
    if v.None? then Some(None)
    else if v.value.JString? && parseTime(v.value.s).Some? then Some(Some(v.value.s))
    else None
  }

  /** The same, refined by `!date || new Date(date) > new Date()`: a present
      date must lie strictly after `now`. The refinement runs only on a value
      the datetime check let through. */
  function FutureDateTime(v: Option<Json>, parseTime: string -> Option<int>, now: int): Option<Option<string>> {
    var d := OptionalDateTime(v, parseTime);
    if d.Some? && d.value.Some? && parseTime(d.value.value).value <= now then None else d
  }

  /** One issue at `key` when its rule `failed`. */
  function IssueAt(failed: bool, key: Key): (r: seq<Issue>)
    ensures forall k :: InvalidField(k) in r <==> failed && k == key
    ensures NotAnObject !in r
  {
    if failed then [InvalidField(key)] else []
  }
}
