/** Printing an ACL and parsing what was printed. */
module AclRoundTrip {
  import opened Common
  import opened AclModel

  lemma DriveElement(p: Parser, tag: Tag, text: string)
    requires Grounded(p)
    ensures Drive(p, Element(tag, text)) ==
            match OnStart(p, tag, NoType)
            case Ok(q) => Step(q.(text := q.text + text), End(tag))
            case Err(e) => Err(e)
  {
    var a, b, c := Start(tag, NoType), Text(text), End(tag);
    assert Element(tag, text) == [a] + ([b] + [c]);
    DriveConcat(p, [a], [b] + [c]);
    DriveOne(p, a);
    match Step(p, a)
    case Ok(q) =>
      DriveConcat(q, [b], [c]);
      DriveOne(q, b);
      DriveOne(Step(q, b).value, c);
    case Err(_) =>
  }

  // ---- The owner ---------------------------------------------------------------------

  lemma ElementAtOwner(p: Parser, tag: Tag, text: string)
    requires Grounded(p) && p.at.AtOwner? && tag != OwnerTag
    ensures Drive(p, Element(tag, text))
            == Ok(Parser(p.acl.(owner := Some(SetUser(p.acl.owner.value, tag, text))), AtOwner, ""))
  {
    DriveElement(p, tag, text);
    assert "" + text == text;
  }

  lemma UserParsed(p: Parser, u: UserValue)
    requires p.at.AtRoot?
    ensures Drive(p, UserEvents(u)) == Ok(Parser(p.acl.(owner := Some(NormalUser(u))), AtRoot, ""))
  {
    var start := UserEvents(u)[0];
    var name := if u.name != "" then Element(NameTag, u.name) else [];
    assert UserEvents(u) == [start] + (Element(IdTag, u.id) + (name + [End(OwnerTag)]));
    var p1 := Parser(p.acl.(owner := Some(UserValue(None, "", ""))), AtOwner, "");
    var p2 := p1.(acl := p1.acl.(owner := Some(UserValue(None, u.id, ""))));
    var p3 := p2.(acl := p2.acl.(owner := Some(NormalUser(u))));
    DriveConcat(p, [start], Element(IdTag, u.id) + (name + [End(OwnerTag)]));
    DriveOne(p, start);
    DriveConcat(p1, Element(IdTag, u.id), name + [End(OwnerTag)]);
    ElementAtOwner(p1, IdTag, u.id);
    DriveConcat(p2, name, [End(OwnerTag)]);
    if u.name != "" {
      ElementAtOwner(p2, NameTag, u.name);
    }
    DriveOne(p3, End(OwnerTag));
  }

  // ---- A scope -----------------------------------------------------------------------

  function ScopePut(p: Parser, s: ScopeValue): Parser
    requires p.acl.entries.Some? && p.acl.entries.value != []
  {
    Parser(WithLast(p.acl, Last(p.acl).(scope := Some(s))), AtScope, "")
  }

  lemma ElementAtScope(p: Parser, tag: Tag, text: string)
    requires Grounded(p) && p.at.AtScope? && Allowed(Last(p.acl).scope.value.kind, tag)
    ensures Drive(p, Element(tag, text)) == Ok(ScopePut(p, SetScope(Last(p.acl).scope.value, tag, text)))
  {
    DriveElement(p, tag, text);
    assert "" + text == text;
  }

  /** One required element, then perhaps a name. */
  lemma ElementAndName(p: Parser, tag: Tag, text: string, name: Option<string>)
    requires Grounded(p) && p.at.AtScope? && tag != NameTag && Last(p.acl).scope.value.name.None?
    requires Allowed(Last(p.acl).scope.value.kind, tag) && Allowed(Last(p.acl).scope.value.kind, NameTag)
    ensures Drive(p, Element(tag, text) + OptionalName(name))
            == Ok(ScopePut(p, SetScope(Last(p.acl).scope.value, tag, text).(name := NormalName(name))))
  {
    var s := SetScope(Last(p.acl).scope.value, tag, text);
    var q := ScopePut(p, s);
    DriveConcat(p, Element(tag, text), OptionalName(name));
    ElementAtScope(p, tag, text);
    if name.Some? && name.value != "" {
      ElementAtScope(q, NameTag, name.value);
      PutTwice(p, s, SetScope(s, NameTag, name.value));
    } else {
      assert s == s.(name := NormalName(name));
    }
  }

  lemma PutTwice(p: Parser, s: ScopeValue, t: ScopeValue)
    requires p.acl.entries.Some? && p.acl.entries.value != []
    ensures ScopePut(ScopePut(p, s), t) == ScopePut(p, t)
  {
    var es, n := p.acl.entries.value, |p.acl.entries.value| - 1;
    assert es[n := es[n].(scope := Some(s))][n := es[n].(scope := Some(t))] == es[n := es[n].(scope := Some(t))];
  }

  lemma BodyParsed(p: Parser, s: ScopeValue)
    requires Grounded(p) && p.at.AtScope? && p.text == ""
    requires Last(p.acl).scope == Some(ScopeValue(s.kind, None, None, None, None))
    ensures Drive(p, ScopeBody(s)) == Ok(ScopePut(p, NormalScope(s)))
  {
    match s.kind
    case AllAuthenticatedUsers => NothingPut(p);
    case AllUsers => NothingPut(p);
    case GroupByDomain => ElementAtScope(p, DomainTag, Show(s.domain));
    case GroupByEmail => ElementAndName(p, EmailAddressTag, Show(s.email), s.name);
    case UserByEmail => ElementAndName(p, EmailAddressTag, Show(s.email), s.name);
    case GroupById => ElementAndName(p, IdTag, Show(s.id), s.name);
    case UserById => ElementAndName(p, IdTag, Show(s.id), s.name);
  }

  lemma NothingPut(p: Parser)
    requires Grounded(p) && p.at.AtScope? && p.text == ""
    ensures p == ScopePut(p, Last(p.acl).scope.value)
  {
    var es, n := p.acl.entries.value, |p.acl.entries.value| - 1;
    assert es[n := es[n]] == es;
  }

  lemma ScopeParsed(p: Parser, s: ScopeValue)
    requires Grounded(p) && p.at.AtEntry?
    ensures Drive(p, ScopeEvents(s)) == Ok(ScopePut(p, NormalScope(s)).(at := AtEntry))
  {
    var start := Start(ScopeTag, KnownType(s.kind));
    var p1 := ScopePut(p, ScopeValue(s.kind, None, None, None, None));
    assert ScopeEvents(s) == [start] + (ScopeBody(s) + [End(ScopeTag)]);
    DriveConcat(p, [start], ScopeBody(s) + [End(ScopeTag)]);
    DriveOne(p, start);
    DriveConcat(p1, ScopeBody(s), [End(ScopeTag)]);
    BodyParsed(p1, s);
    PutTwice(p, Last(p1.acl).scope.value, NormalScope(s));
    var p2 := ScopePut(p, NormalScope(s));
    DriveOne(p2, End(ScopeTag));
    NothingPut(p2);
  }

  // ---- Entries -----------------------------------------------------------------------

  function Extended(p: Parser, entries: seq<EntryValue>): Parser
    requires p.acl.entries.Some?
  {
    Parser(p.acl.(entries := Some(p.acl.entries.value + entries)), AtEntries, "")
  }

  /** Scope and permission, in a new entry. */
  lemma ContentsParsed(p: Parser, e: EntryValue)
    requires Grounded(p) && p.at.AtEntries? && e.scope.Some?
    ensures Drive(Extended(p, [NEW_ENTRY]).(at := AtEntry),
                  ScopeEvents(e.scope.value) + Element(PermissionTag, Show(e.permission))) ==
            if Supported(Strip(Show(e.permission))) then Ok(Extended(p, [NormalEntry(e)]).(at := AtEntry))
            else Err(InvalidPermission)
  {
    var scope := e.scope.value;
    var p1 := Extended(p, [NEW_ENTRY]).(at := AtEntry);
    DriveConcat(p1, ScopeEvents(scope), Element(PermissionTag, Show(e.permission)));
    ScopeParsed(p1, scope);
    var scoped := EntryValue(Some(NormalScope(scope)), None);
    LastOfExtended(p, NEW_ENTRY, scoped);
    PermissionParsed(Extended(p, [scoped]).(at := AtEntry), Show(e.permission));
    if Supported(Strip(Show(e.permission))) {
      LastOfExtended(p, scoped, NormalEntry(e));
    }
  }

  lemma EntryParsed(p: Parser, e: EntryValue)
    requires Grounded(p) && p.at.AtEntries? && e.scope.Some?
    ensures Drive(p, EntryEvents(e)) ==
            if Supported(Strip(Show(e.permission))) then Ok(Extended(p, [NormalEntry(e)])) else Err(InvalidPermission)
  {
    var start, scope := Start(EntryTag, NoType), e.scope.value;
    var permission := Element(PermissionTag, Show(e.permission));
    assert EntryEvents(e) == [start] + ((ScopeEvents(scope) + permission) + [End(EntryTag)]);
    var p1 := Extended(p, [NEW_ENTRY]).(at := AtEntry);
    DriveConcat(p, [start], (ScopeEvents(scope) + permission) + [End(EntryTag)]);
    DriveOne(p, start);
    DriveConcat(p1, ScopeEvents(scope) + permission, [End(EntryTag)]);
    ContentsParsed(p, e);
    if Supported(Strip(Show(e.permission))) {
      DriveOne(Extended(p, [NormalEntry(e)]).(at := AtEntry), End(EntryTag));
    }
  }

  lemma LastOfExtended(p: Parser, e: EntryValue, f: EntryValue)
    requires p.acl.entries.Some?
    ensures Last(Extended(p, [e]).acl) == e
    ensures WithLast(Extended(p, [e]).acl, f) == Extended(p, [f]).acl
  {
    var es := p.acl.entries.value;
    assert (es + [e])[|es| := f] == es + [f];
  }

  lemma PermissionParsed(p: Parser, text: string)
    requires Grounded(p) && p.at.AtEntry?
    ensures Drive(p, Element(PermissionTag, text)) ==
            if Supported(Strip(text)) then
              Ok(Parser(WithLast(p.acl, Last(p.acl).(permission := Some(Strip(text)))), AtEntry, ""))
            else Err(InvalidPermission)
  {
    DriveElement(p, PermissionTag, text);
    assert "" + text == text;
  }

  lemma {:induction false} EntriesParsed(p: Parser, entries: seq<EntryValue>)
    requires Grounded(p) && p.at.AtEntries? && p.text == "" && Scoped(entries)
    ensures Drive(p, AllEntryEvents(entries)) ==
            if PermissionsSupported(entries) then Ok(Extended(p, NormalEntries(entries))) else Err(InvalidPermission)
    decreases |entries|
  {
    if entries == [] {
      assert p.acl.entries.value + NormalEntries(entries) == p.acl.entries.value;
    } else {
      var n := |entries| - 1;
      assert entries == entries[..n] + [entries[n]];
      EntriesParsed(p, entries[..n]);
      DriveConcat(p, AllEntryEvents(entries[..n]), EntryEvents(entries[n]));
      assert PermissionsSupported(entries) <==>
        PermissionsSupported(entries[..n]) && Supported(Strip(Show(entries[n].permission)));
      if PermissionsSupported(entries[..n]) {
        EntryParsed(Extended(p, NormalEntries(entries[..n])), entries[n]);
        assert p.acl.entries.value + NormalEntries(entries[..n]) + [NormalEntry(entries[n])]
            == p.acl.entries.value + NormalEntries(entries);
      }
    }
  }

  // ---- The whole ACL -----------------------------------------------------------------

  predicate AllSupported(a: AclValue) {
    a.entries.Some? ==> PermissionsSupported(a.entries.value)
  }

  lemma EntriesElementParsed(p: Parser, entries: seq<EntryValue>)
    requires p.at.AtRoot? && Scoped(entries)
    ensures Drive(p, EntriesEvents(entries)) ==
            if PermissionsSupported(entries) then
              Ok(Parser(p.acl.(entries := Some(NormalEntries(entries))), AtRoot, ""))
            else Err(InvalidPermission)
  {
    var start := Start(EntriesTag, NoType);
    var p1 := Parser(p.acl.(entries := Some([])), AtEntries, "");
    assert EntriesEvents(entries) == [start] + (AllEntryEvents(entries) + [End(EntriesTag)]);
    DriveConcat(p, [start], AllEntryEvents(entries) + [End(EntriesTag)]);
    DriveOne(p, start);
    DriveConcat(p1, AllEntryEvents(entries), [End(EntriesTag)]);
    EntriesParsed(p1, entries);
    assert [] + NormalEntries(entries) == NormalEntries(entries);
    DriveOne(Extended(p1, NormalEntries(entries)), End(EntriesTag));
  }

  /** For every printable ACL, driving the handler with the events of `to_xml` rebuilds its normal form
      and leaves only the root on the stack, or, when some permission is not supported, raises. */
  lemma PrintedAclParses(a: AclValue)
    requires Printable(a)
    ensures Drive(INITIAL, AclEvents(a)) ==
            if AllSupported(a) then Ok(Parser(NormalAcl(a), AtRoot, "")) else Err(InvalidPermission)
  {
    var start, end := Start(AccessControlListTag, NoType), End(AccessControlListTag);
    var owner := if a.owner.Some? then UserEvents(a.owner.value) else [];
    var entries := if a.entries.Some? then EntriesEvents(a.entries.value) else [];
    assert AclEvents(a) == [start] + ((owner + entries) + [end]);
    DriveConcat(INITIAL, [start], (owner + entries) + [end]);
    DriveOne(INITIAL, start);
    DriveConcat(INITIAL, owner + entries, [end]);
    DriveConcat(INITIAL, owner, entries);
    if a.owner.Some? {
      UserParsed(INITIAL, a.owner.value);
    }
    var p := Parser(AclValue(NormalAcl(a).owner, None), AtRoot, "");
    if a.entries.Some? {
      EntriesElementParsed(p, a.entries.value);
    }
    DriveOne(Parser(NormalAcl(a), AtRoot, ""), end);
  }

  // ---- Text that is read ---------------------------------------------------------------

  const BLANKS := " \t\n\r\U{00000B}\U{00000C}"

  const PERMISSIONS := {"READ", "WRITE", "FULL_CONTROL"}

  predicate Blanks(s: string) {
    forall c <- s :: c in BLANKS
  }

  predicate NoBlankEnds(s: string) {
    s != [] ==> s[0] !in BLANKS && s[|s| - 1] !in BLANKS
  }

  lemma StripPadded(a: string, core: string, b: string)
    requires Blanks(a) && Blanks(b) && NoBlankEnds(core)
    ensures Strip(a + core + b) == core
  {
    TrimPadded(a, core, b, Space);
  }

  lemma StripSplits(text: string) returns (a: string, b: string)
    ensures text == a + Strip(text) + b && Blanks(a) && Blanks(b) && NoBlankEnds(Strip(text))
  {
    a, b := TrimSplits(text, Space);
    assert forall c: char :: Space(c) <==> c in BLANKS;
  }

  lemma StripsNothingIff(text: string)
    ensures Strip(text) == text <==> NoBlankEnds(text)
  {
    var a, b := StripSplits(text);
    if NoBlankEnds(text) {
      StripPadded([], text, []);
      assert [] + text + [] == text;
    }
  }

  ghost predicate IsPadded(text: string, core: string) {
    exists a, b :: Blanks(a) && Blanks(b) && text == a + core + b
  }

  /** The text of a Permission element, trimmed, is stored in the entry when it is one of the three names, and
      raises otherwise. */
  lemma PermissionRead(p: Parser, text: string)
    requires Grounded(p) && p.at.AtEntry?
    ensures forall name <- PERMISSIONS :: IsPadded(text, name) ==>
              Drive(p, Element(PermissionTag, text))
              == Ok(Parser(WithLast(p.acl, Last(p.acl).(permission := Some(name))), AtEntry, ""))
    ensures (forall name <- PERMISSIONS :: !IsPadded(text, name)) ==>
              Drive(p, Element(PermissionTag, text)) == Err(InvalidPermission)
  {
    PermissionParsed(p, text);
    PermissionNamed(text);
  }

  lemma PermissionNamed(text: string)
    ensures forall name <- PERMISSIONS :: IsPadded(text, name) ==> Strip(text) == name
    ensures Supported(Strip(text)) <==> exists name <- PERMISSIONS :: IsPadded(text, name)
  {
    forall name | name in PERMISSIONS && IsPadded(text, name)
      ensures Strip(text) == name
    {
      var a, b :| Blanks(a) && Blanks(b) && text == a + name + b;
      StripPadded(a, name, b);
    }
    var a, b := StripSplits(text);
    assert IsPadded(text, Strip(text));
  }

  /** The text of an element of a scope is stored without the blanks around it. */
  lemma FieldRead(p: Parser, tag: Tag, a: string, core: string, b: string)
    requires Grounded(p) && p.at.AtScope? && Blanks(a) && Blanks(b) && NoBlankEnds(core)
    requires Start(tag, NoType) in ScopeBody(Last(p.acl).scope.value)
    ensures var s := Last(p.acl).scope.value;
            Drive(p, Element(tag, a + core + b)) ==
            Ok(ScopePut(p, match tag
                           case DomainTag => s.(domain := Some(core))
                           case EmailAddressTag => s.(email := Some(core))
                           case IdTag => s.(id := Some(core))
                           case _ => s.(name := Some(core))))
  {
    StripPadded(a, core, b);
    var s := Last(p.acl).scope.value;
    AllowedIsPrinted(s, tag);
    ElementAtScope(p, tag, a + core + b);
  }

  lemma AllowedIsPrinted(s: ScopeValue, tag: Tag)
    ensures Start(tag, NoType) in ScopeBody(s) ==> Allowed(s.kind, tag)
    ensures Allowed(s.kind, tag) ==> tag == NameTag || Start(tag, NoType) in ScopeBody(s)
    ensures Allowed(s.kind, tag) && s.name.Some? && s.name.value != "" ==> Start(tag, NoType) in ScopeBody(s)
  {
    match s.kind
    case AllAuthenticatedUsers =>
    case AllUsers =>
    case GroupByDomain => PrintedTags(DomainTag, Show(s.domain), None, tag);
    case GroupByEmail => PrintedTags(EmailAddressTag, Show(s.email), s.name, tag);
    case UserByEmail => PrintedTags(EmailAddressTag, Show(s.email), s.name, tag);
    case GroupById => PrintedTags(IdTag, Show(s.id), s.name, tag);
    case UserById => PrintedTags(IdTag, Show(s.id), s.name, tag);
  }

  lemma PrintedTags(main: Tag, text: string, name: Option<string>, tag: Tag)
    ensures Start(tag, NoType) in Element(main, text) <==> tag == main
    ensures Start(tag, NoType) in Element(main, text) + OptionalName(name)
            <==> tag == main || (tag == NameTag && name.Some? && name.value != "")
  {
    var first, last := Element(main, text), OptionalName(name);
    assert first[0] == Start(main, NoType) && forall e <- first :: e == first[0] || e == first[1] || e == first[2];
    if last != [] {
      assert last[0] == Start(NameTag, NoType) && forall e <- last :: e == last[0] || e == last[1] || e == last[2];
    }
    assert forall e :: e in first + last <==> e in first || e in last;
  }

  /** Inside a scope exactly the elements that a scope of its type is printed with can begin. */
  lemma ScopeElementsIff(p: Parser, tag: Tag, attr: TypeAttr)
    requires Grounded(p) && p.at.AtScope?
    ensures var kind := Last(p.acl).scope.value.kind;
            Drive(p, [Start(tag, attr)]) ==
            if exists s: ScopeValue :: s.kind == kind && Start(tag, NoType) in ScopeBody(s) then Ok(p.(text := ""))
            else Err(ElementNotAllowed)
  {
    DriveOne(p, Start(tag, attr));
    var kind := Last(p.acl).scope.value.kind;
    AllowedIsPrinted(ScopeValue(kind, None, Some("n"), None, None), tag);
    forall s: ScopeValue | s.kind == kind && Start(tag, NoType) in ScopeBody(s)
      ensures Allowed(kind, tag)
    {
      AllowedIsPrinted(s, tag);
    }
  }

  /** A scope that is printed without its id comes back with one, the text of Python's `None`. */
  lemma UnsetIdReadsNone(p: Parser, s: ScopeValue)
    requires Grounded(p) && p.at.AtEntry? && (s.kind.UserById? || s.kind.GroupById?) && s.id.None?
    ensures exists t: ScopeValue ::
              t.id == Some("None") && Drive(p, ScopeEvents(s)) == Ok(ScopePut(p, t).(at := AtEntry))
  {
    ScopeParsed(p, s);
    StripsNothingIff("None");
    assert NormalScope(s).id == Some("None");
  }

  /** Outside a scope, elements that the ACL does not know change nothing. */
  lemma UnknownIsIgnored(p: Parser, name: string, text: string)
    requires Grounded(p) && !p.at.AtScope? && !p.at.AtNothing? && (p.at.AtRoot? ==> name != "root")
    ensures Drive(p, Element(OtherTag(name), text)) == Ok(p.(text := ""))
  {
    DriveElement(p, OtherTag(name), text);
  }

  /** A scope needs a type that is known. */
  lemma ScopeNeedsType(p: Parser, attr: TypeAttr)
    requires Grounded(p) && p.at.AtEntry?
    ensures attr.NoType? ==> Drive(p, [Start(ScopeTag, attr)]) == Err(MissingScopeType)
    ensures attr.UnknownType? ==> Drive(p, [Start(ScopeTag, attr)]) == Err(InvalidScopeType)
  {
    DriveOne(p, Start(ScopeTag, attr));
  }

  /** The name of an owner is printed unless it is empty. */
  lemma OwnerNamePrintedIff(u: UserValue)
    ensures Start(NameTag, NoType) in UserEvents(u) <==> u.name != ""
  {
    var id, name := Element(IdTag, u.id), if u.name != "" then Element(NameTag, u.name) else [];
    var all := [UserEvents(u)[0]] + id + name + [End(OwnerTag)];
    assert UserEvents(u) == all;
    assert forall e :: e in all <==> e == UserEvents(u)[0] || e in id || e in name || e == End(OwnerTag);
    assert forall e <- id :: e == id[0] || e == id[1] || e == id[2];
    assert name != [] ==> name[0] in name;
  }

  /** Two owners print alike exactly when they have the same id, name and type, no type being the same as an
      empty one. */
  lemma OwnersPrintAlikeIff(u: UserValue, v: UserValue)
    ensures UserEvents(u) == UserEvents(v)
            <==> && u.id == v.id && u.name == v.name
                 && (u.kind == v.kind || (u.kind in {None, Some("")} && v.kind in {None, Some("")}))
  {
    var p := INITIAL;
    if UserEvents(u) == UserEvents(v) {
      UserParsed(p, u);
      UserParsed(p, v);
      assert UserEvents(u)[0] == UserEvents(v)[0];
    }
  }

  predicate GoodField(o: Option<string>) {
    o.Some? && NoBlankEnds(o.value)
  }

  predicate GoodName(name: Option<string>) {
    name.None? || (name.value != "" && NoBlankEnds(name.value))
  }

  /** The fields a scope of each type must and may have. */
  predicate GoodScope(s: ScopeValue) {
    match s.kind
    case AllAuthenticatedUsers => s.id.None? && s.name.None? && s.email.None? && s.domain.None?
    case AllUsers => s.id.None? && s.name.None? && s.email.None? && s.domain.None?
    case GroupByDomain => GoodField(s.domain) && s.id.None? && s.name.None? && s.email.None?
    case GroupByEmail => GoodField(s.email) && GoodName(s.name) && s.id.None? && s.domain.None?
    case UserByEmail => GoodField(s.email) && GoodName(s.name) && s.id.None? && s.domain.None?
    case GroupById => GoodField(s.id) && GoodName(s.name) && s.email.None? && s.domain.None?
    case UserById => GoodField(s.id) && GoodName(s.name) && s.email.None? && s.domain.None?
  }

  predicate GoodEntry(e: EntryValue)
    requires e.scope.Some?
  {
    GoodScope(e.scope.value) && e.permission.Some? && e.permission.value in PERMISSIONS
  }

  predicate WellFormed(a: AclValue)
    requires Printable(a)
  {
    && (a.owner.Some? ==> a.owner.value.kind.None?)
    && (a.entries.Some? ==> forall e <- a.entries.value :: GoodEntry(e))
  }

  lemma ScopeIsNormalIff(s: ScopeValue)
    ensures NormalScope(s) == s <==> GoodScope(s)
  {
    forall text: string
      ensures Strip(text) == text <==> NoBlankEnds(text)
    {
      StripsNothingIff(text);
    }
  }

  lemma EntryIsNormalIff(e: EntryValue)
    requires e.scope.Some?
    ensures NormalEntry(e) == e && Supported(Strip(Show(e.permission))) <==> GoodEntry(e)
  {
    ScopeIsNormalIff(e.scope.value);
    StripsNothingIff(Show(e.permission));
    assert "None" !in PERMISSIONS;
  }

  /** Printing and parsing gives back the same owner and entries, in order, exactly for the well-formed
      ACLs: known scope types with their required fields trimmed and no others, supported permissions,
      and an owner without a type. */
  lemma RoundTripIff(a: AclValue)
    requires Printable(a)
    ensures Drive(INITIAL, AclEvents(a)) == Ok(Parser(a, AtRoot, "")) <==> WellFormed(a)
  {
    PrintedAclParses(a);
    if a.entries.Some? {
      var es := a.entries.value;
      forall i | 0 <= i < |es|
        ensures NormalEntries(es)[i] == es[i] && Supported(Strip(Show(es[i].permission))) <==> GoodEntry(es[i])
      {
        assert es[i] in es;
        EntryIsNormalIff(es[i]);
      }
      assert NormalEntries(es) == es && PermissionsSupported(es) <==> forall e <- es :: GoodEntry(e);
    }
  }

  // ---- However the text is delivered -------------------------------------------------

  /** Joins neighbouring text events. */
  function Merge(events: seq<Event>): seq<Event>
    decreases |events|
  {
    if |events| < 2 then events
    else if events[0].Text? && events[1].Text? then
      Merge([Text(events[0].text + events[1].text)] + events[2..])
    else [events[0]] + Merge(events[1..])
  }

  /** A parser that hands over an element's text in pieces gets the same result. */
  lemma {:induction false} PiecesDoNotMatter(p: Parser, events: seq<Event>)
    requires Grounded(p)
    ensures Drive(p, events) == Drive(p, Merge(events))
    decreases |events|
  {
    if |events| >= 2 {
      if events[0].Text? && events[1].Text? {
        var a, b, rest := events[0], events[1], events[2..];
        var joined := Text(a.text + b.text);
        PiecesDoNotMatter(p, [joined] + rest);
        assert events == [a] + ([b] + rest);
        var q := p.(text := p.text + a.text);
        assert q.text + b.text == p.text + (a.text + b.text);
        DriveConcat(p, [a], [b] + rest);
        DriveOne(p, a);
        DriveConcat(q, [b], rest);
        DriveOne(q, b);
        DriveConcat(p, [joined], rest);
        DriveOne(p, joined);
      } else {
        assert (([events[0]] + Merge(events[1..]))[1..]) == Merge(events[1..]);
        match Step(p, events[0])
        case Ok(q) => PiecesDoNotMatter(q, events[1..]);
        case Err(_) =>
      }
    }
  }
}
