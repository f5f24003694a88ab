/** Google Storage ACLs as values: what the `to_xml` methods print and what the SAX callbacks rebuild,
    at the level of start, text and end events. */
module AclModel {
  import opened Common

  // ---- Values ------------------------------------------------------------------------

  datatype ScopeType =
    | AllAuthenticatedUsers | AllUsers | GroupByDomain | GroupByEmail | GroupById | UserByEmail | UserById

  datatype UserValue = UserValue(kind: Option<string>, id: string, name: string)

  datatype ScopeValue = ScopeValue(
    kind: ScopeType, id: Option<string>, name: Option<string>, email: Option<string>, domain: Option<string>)

  /** While it is being parsed an entry has no scope and no permission of its own. */
  datatype EntryValue = EntryValue(scope: Option<ScopeValue>, permission: Option<string>)

  datatype AclValue = AclValue(owner: Option<UserValue>, entries: Option<seq<EntryValue>>)

  // ---- Events ------------------------------------------------------------------------

  datatype Tag =
    | AccessControlListTag | OwnerTag | EntriesTag | EntryTag | ScopeTag | PermissionTag
    | IdTag | NameTag | EmailAddressTag | DomainTag | OtherTag(name: string)

  /** The `type` attribute of a start tag. */
  datatype TypeAttr = NoType | KnownType(kind: ScopeType) | UnknownType(text: string)

  datatype Event = Start(tag: Tag, attr: TypeAttr) | Text(text: string) | End(tag: Tag)

  // ---- Printing ----------------------------------------------------------------------

  /** `'%s' % value`. */
  function Show(o: Option<string>): string {
    if o.None? then "None" else o.value
  }

  function Element(tag: Tag, text: string): seq<Event> {
    [Start(tag, NoType), Text(text), End(tag)]
  }

  function UserEvents(u: UserValue): seq<Event> {
    [Start(OwnerTag, if u.kind.Some? && u.kind.value != "" then UnknownType(u.kind.value) else NoType)]
    + Element(IdTag, u.id)
    + (if u.name != "" then Element(NameTag, u.name) else [])
    + [End(OwnerTag)]
  }

  function OptionalName(name: Option<string>): seq<Event> {
    if name.Some? && name.value != "" then Element(NameTag, name.value) else []
  }

  function ScopeBody(s: ScopeValue): seq<Event> {
    match s.kind
    case AllAuthenticatedUsers => []
    case AllUsers => []
    case GroupByDomain => Element(DomainTag, Show(s.domain))
    case GroupByEmail => Element(EmailAddressTag, Show(s.email)) + OptionalName(s.name)
    case UserByEmail => Element(EmailAddressTag, Show(s.email)) + OptionalName(s.name)
    case GroupById => Element(IdTag, Show(s.id)) + OptionalName(s.name)
    case UserById => Element(IdTag, Show(s.id)) + OptionalName(s.name)
  }

  function ScopeEvents(s: ScopeValue): seq<Event> {
    [Start(ScopeTag, KnownType(s.kind))] + ScopeBody(s) + [End(ScopeTag)]
  }

  function EntryEvents(e: EntryValue): seq<Event>
    requires e.scope.Some?
  {
    [Start(EntryTag, NoType)]
    + (ScopeEvents(e.scope.value) + Element(PermissionTag, Show(e.permission)))
    + [End(EntryTag)]
  }

  predicate Scoped(entries: seq<EntryValue>) {
    forall e <- entries :: e.scope.Some?
  }

  function AllEntryEvents(entries: seq<EntryValue>): seq<Event>
    requires Scoped(entries)
  {
    if entries == [] then []
    else
      var n := |entries| - 1;
      assert entries[n] in entries;
      AllEntryEvents(entries[..n]) + EntryEvents(entries[n])
  }

  lemma OneMoreEntry(entries: seq<EntryValue>, i: nat)
    requires Scoped(entries) && i < |entries|
    ensures Scoped(entries[..i]) && Scoped(entries[..i + 1]) && entries[i].scope.Some?
    ensures AllEntryEvents(entries[..i + 1]) == AllEntryEvents(entries[..i]) + EntryEvents(entries[i])
  {
    assert entries[i] in entries;
    assert entries[..i + 1][..i] == entries[..i];
  }

  function EntriesEvents(entries: seq<EntryValue>): seq<Event>
    requires Scoped(entries)
  {
    [Start(EntriesTag, NoType)] + AllEntryEvents(entries) + [End(EntriesTag)]
  }

  predicate Printable(a: AclValue) {
    a.entries.Some? ==> Scoped(a.entries.value)
  }

  function AclEvents(a: AclValue): seq<Event>
    requires Printable(a)
  {
    [Start(AccessControlListTag, NoType)]
    + ((if a.owner.Some? then UserEvents(a.owner.value) else [])
       + (if a.entries.Some? then EntriesEvents(a.entries.value) else []))
    + [End(AccessControlListTag)]
  }

  // ---- Parsing -----------------------------------------------------------------------

  datatype Error = MissingScopeType | InvalidScopeType | ElementNotAllowed | InvalidPermission | NoNode

  /** The node on top of the handler's stack; below each one lies the chain of its parents. */
  datatype Place = AtNothing | AtRoot | AtOwner | AtEntries | AtEntry | AtScope

  datatype Parser = Parser(acl: AclValue, at: Place, text: string)

  const EMPTY_ACL := AclValue(None, None)

  const INITIAL := Parser(EMPTY_ACL, AtRoot, "")

  predicate Space(c: char) {
    c in " \t\n\r\U{00000B}\U{00000C}"
  }

  function Strip(s: string): string {
    Trim(s, Space)
  }

  predicate Supported(permission: string) {
    permission == "READ" || permission == "WRITE" || permission == "FULL_CONTROL"
  }

  predicate Allowed(kind: ScopeType, tag: Tag) {
    match kind
    case AllAuthenticatedUsers => false
    case AllUsers => false
    case GroupByDomain => tag == DomainTag
    case GroupByEmail => tag == EmailAddressTag || tag == NameTag
    case UserByEmail => tag == EmailAddressTag || tag == NameTag
    case GroupById => tag == IdTag || tag == NameTag
    case UserById => tag == IdTag || tag == NameTag
  }

  /** There is an owner, an entry, a scope where the parser stands. */
  predicate Grounded(p: Parser) {
    && (p.at.AtOwner? ==> p.acl.owner.Some?)
    && (p.at.AtEntries? || p.at.AtEntry? || p.at.AtScope? ==> p.acl.entries.Some?)
    && (p.at.AtEntry? || p.at.AtScope? ==> p.acl.entries.value != [])
    && (p.at.AtScope? ==> Last(p.acl).scope.Some?)
  }

  function Last(a: AclValue): EntryValue
    requires a.entries.Some? && a.entries.value != []
  {
    a.entries.value[|a.entries.value| - 1]
  }

  function WithLast(a: AclValue, e: EntryValue): AclValue
    requires a.entries.Some? && a.entries.value != []
  {
    a.(entries := Some(a.entries.value[|a.entries.value| - 1 := e]))
  }

  const NEW_ENTRY := EntryValue(None, None)

  function OnStart(p: Parser, tag: Tag, attr: TypeAttr): Result<Parser, Error>
    requires Grounded(p)
  {
    var q := p.(text := "");
    match p.at
    case AtNothing => Err(NoNode)
    case AtRoot =>
      if tag == OwnerTag then Ok(q.(acl := p.acl.(owner := Some(UserValue(None, "", ""))), at := AtOwner))
      else if tag == EntriesTag then Ok(q.(acl := p.acl.(entries := Some([])), at := AtEntries))
      else Ok(q)
    case AtOwner => Ok(q)
    case AtEntries =>
      if tag == EntryTag then Ok(q.(acl := p.acl.(entries := Some(p.acl.entries.value + [NEW_ENTRY])), at := AtEntry))
      else Ok(q)
    case AtEntry =>
      if tag == ScopeTag then
        match attr
        case NoType => Err(MissingScopeType)
        case UnknownType(_) => Err(InvalidScopeType)
        case KnownType(kind) =>
          var scope := ScopeValue(kind, None, None, None, None);
          Ok(q.(acl := WithLast(p.acl, Last(p.acl).(scope := Some(scope))), at := AtScope))
      else Ok(q)
    case AtScope =>
      if Allowed(Last(p.acl).scope.value.kind, tag) then Ok(q) else Err(ElementNotAllowed)
  }

  /** A start tag clears the text before anything else. */
  lemma StartIgnoresText(p: Parser, tag: Tag, attr: TypeAttr)
    requires Grounded(p)
    ensures OnStart(p.(text := ""), tag, attr) == OnStart(p, tag, attr)
  {
  }

  function SetUser(u: UserValue, tag: Tag, text: string): UserValue {
    if tag == NameTag then u.(name := text) else if tag == IdTag then u.(id := text) else u
  }

  function SetScope(s: ScopeValue, tag: Tag, text: string): ScopeValue {
    match tag
    case DomainTag => s.(domain := Some(Strip(text)))
    case EmailAddressTag => s.(email := Some(Strip(text)))
    case IdTag => s.(id := Some(Strip(text)))
    case NameTag => s.(name := Some(Strip(text)))
    case _ => s
  }

  /** What the node on top does with the end of an element. */
  function Filled(p: Parser, tag: Tag): Result<AclValue, Error>
    requires Grounded(p)
  {
    match p.at
    case AtNothing => Err(NoNode)
    case AtRoot => Ok(p.acl)
    case AtOwner => Ok(p.acl.(owner := Some(SetUser(p.acl.owner.value, tag, p.text))))
    case AtEntries => Ok(p.acl)
    case AtEntry =>
      if tag != PermissionTag then Ok(p.acl)
      else if Supported(Strip(p.text)) then
        Ok(WithLast(p.acl, Last(p.acl).(permission := Some(Strip(p.text)))))
      else Err(InvalidPermission)
    case AtScope =>
      Ok(WithLast(p.acl, Last(p.acl).(scope := Some(SetScope(Last(p.acl).scope.value, tag, p.text)))))
  }

  /** The element name a node was pushed under. */
  function PushedAs(at: Place): Tag {
    match at
    case AtOwner => OwnerTag
    case AtEntries => EntriesTag
    case AtEntry => EntryTag
    case AtScope => ScopeTag
    case _ => OtherTag("root")
  }

  function Below(at: Place): Place {
    match at
    case AtScope => AtEntry
    case AtEntry => AtEntries
    case AtEntries => AtRoot
    case AtOwner => AtRoot
    case _ => AtNothing
  }

  /** The stack is popped when the element that ends has the name of the node on top. */
  function Popped(at: Place, tag: Tag): Place {
    if tag == PushedAs(at) then Below(at) else at
  }

  function OnEnd(p: Parser, tag: Tag): Result<Parser, Error>
    requires Grounded(p)
  {
    match Filled(p, tag)
    case Ok(acl) => Ok(Parser(acl, Popped(p.at, tag), ""))
    case Err(e) => Err(e)
  }

  function Step(p: Parser, e: Event): (r: Result<Parser, Error>)
    requires Grounded(p)
    ensures r.Ok? ==> Grounded(r.value)
  {
    match e
    case Start(tag, attr) => OnStart(p, tag, attr)
    case Text(text) => Ok(p.(text := p.text + text))
    case End(tag) => OnEnd(p, tag)
  }

  function Drive(p: Parser, events: seq<Event>): (r: Result<Parser, Error>)
    requires Grounded(p)
    ensures r.Ok? ==> Grounded(r.value)
    decreases |events|
  {
    if events == [] then Ok(p)
    else
      match Step(p, events[0])
      case Ok(q) => Drive(q, events[1..])
      case Err(e) => Err(e)
  }

  lemma {:induction false} DriveConcat(p: Parser, a: seq<Event>, b: seq<Event>)
    requires Grounded(p)
    ensures Drive(p, a + b) == match Drive(p, a) case Ok(q) => Drive(q, b) case Err(e) => Err(e)
    decreases |a|
  {
    if a == [] {
      assert a + b == b;
    } else {
      assert (a + b)[0] == a[0] && (a + b)[1..] == a[1..] + b;
      match Step(p, a[0])
      case Ok(q) => DriveConcat(q, a[1..], b);
      case Err(_) =>
    }
  }

  lemma DriveOne(p: Parser, e: Event)
    requires Grounded(p)
    ensures Drive(p, [e]) == Step(p, e)
  {
  }

  // ---- What parsing makes of printing ------------------------------------------------

  function NormalUser(u: UserValue): UserValue {
    u.(kind := None)
  }

  function NormalName(name: Option<string>): Option<string> {
    if name.Some? && name.value != "" then Some(Strip(name.value)) else None
  }

  function NormalScope(s: ScopeValue): ScopeValue {
    var none := ScopeValue(s.kind, None, None, None, None);
    match s.kind
    case AllAuthenticatedUsers => none
    case AllUsers => none
    case GroupByDomain => none.(domain := Some(Strip(Show(s.domain))))
    case GroupByEmail => none.(email := Some(Strip(Show(s.email))), name := NormalName(s.name))
    case UserByEmail => none.(email := Some(Strip(Show(s.email))), name := NormalName(s.name))
    case GroupById => none.(id := Some(Strip(Show(s.id))), name := NormalName(s.name))
    case UserById => none.(id := Some(Strip(Show(s.id))), name := NormalName(s.name))
  }

  function NormalEntry(e: EntryValue): EntryValue
    requires e.scope.Some?
  {
    EntryValue(Some(NormalScope(e.scope.value)), Some(Strip(Show(e.permission))))
  }

  function NormalEntries(entries: seq<EntryValue>): (r: seq<EntryValue>)
    requires Scoped(entries)
    ensures |r| == |entries|
  {
    seq(|entries|, i requires 0 <= i < |entries| => assert entries[i] in entries; NormalEntry(entries[i]))
  }

  function NormalAcl(a: AclValue): AclValue
    requires Printable(a)
  {
    AclValue(
      if a.owner.Some? then Some(NormalUser(a.owner.value)) else None,
      if a.entries.Some? then Some(NormalEntries(a.entries.value)) else None)
  }

  predicate PermissionsSupported(entries: seq<EntryValue>) {
    forall e <- entries :: Supported(Strip(Show(e.permission)))
  }
}
