/** The ACL node objects with their SAX callbacks and printers, and `XmlHandler`, the stack machine that
    drives the callbacks; proved to do on the heap what `AclModel` says on values. */
module GsAcl {
  import opened Common
  import opened AclModel
  import opened AclRoundTrip

  class User {
    var kind: Option<string>
    var id: string
    var name: string

    constructor ()
      ensures Value() == UserValue(None, "", "")
    {
      kind, id, name := None, "", "";
    }

    ghost function Value(): UserValue
      reads this
    {
      UserValue(kind, id, name)
    }

    method EndElement(tag: Tag, value: string)
      modifies this
      ensures Value() == SetUser(old(Value()), tag, value)
    {
      if tag == NameTag {
        name := value;
      } else if tag == IdTag {
        id := value;
      }
    }

    method ToXml() returns (s: seq<Event>)
      ensures s == UserEvents(Value())
    {
      if kind.Some? && kind.value != "" {
        s := [Start(OwnerTag, UnknownType(kind.value))];
      } else {
        s := [Start(OwnerTag, NoType)];
      }
      s := s + Element(IdTag, id);
      if name != "" {
        s := s + Element(NameTag, name);
      }
      s := s + [End(OwnerTag)];
    }
  }

  class Scope {
    const kind: ScopeType
    var id: Option<string>
    var name: Option<string>
    var email: Option<string>
    var domain: Option<string>

    constructor (kind: ScopeType)
      ensures Value() == ScopeValue(kind, None, None, None, None)
    {
      this.kind := kind;
      id, name, email, domain := None, None, None, None;
    }

    ghost function Value(): ScopeValue
      reads this
    {
      ScopeValue(kind, id, name, email, domain)
    }

    method EndElement(tag: Tag, text: string)
      modifies this
      ensures Value() == SetScope(old(Value()), tag, text)
    {
      var value := Strip(text);
      match tag
      case DomainTag => domain := Some(value);
      case EmailAddressTag => email := Some(value);
      case IdTag => id := Some(value);
      case NameTag => name := Some(value);
      case _ =>
    }

    method ToXml() returns (s: seq<Event>)
      ensures s == ScopeEvents(Value())
    {
      s := [Start(ScopeTag, KnownType(kind))];
      if kind.AllAuthenticatedUsers? || kind.AllUsers? {
      } else if kind.GroupByDomain? {
        s := s + Element(DomainTag, Show(domain));
      } else {
        var first := if kind.GroupByEmail? || kind.UserByEmail? then Element(EmailAddressTag, Show(email))
                     else Element(IdTag, Show(id));
        s := s + first;
        if name.Some? && name.value != "" {
          s := s + Element(NameTag, name.value);
        }
      }
      assert s == [Start(ScopeTag, KnownType(kind))] + ScopeBody(Value());
      s := s + [End(ScopeTag)];
    }
  }

  /** A null scope stands for the enclosing `Entries` node that the constructor call in
      `Entries.startElement` leaves there until a Scope element is met. */
  class Entry {
    var scope: Scope?
    var permission: Option<string>

    constructor ()
      ensures scope == null && permission == None
    {
      scope, permission := null, None;
    }

    ghost function Value(): EntryValue
      reads this, scope
    {
      EntryValue(if scope == null then None else Some(scope.Value()), permission)
    }

    /** The permission part of `endElement`. */
    method SetPermission(text: string) returns (error: Option<Error>)
      modifies this`permission
      ensures if Supported(Strip(text)) then error == None && permission == Some(Strip(text))
              else error == Some(InvalidPermission) && permission == old(permission)
      ensures forall name <- PERMISSIONS :: IsPadded(text, name) ==> error == None && permission == Some(name)
      ensures (forall name <- PERMISSIONS :: !IsPadded(text, name)) ==> error == Some(InvalidPermission)
    {
      PermissionNamed(text);
      var value := Strip(text);
      if !Supported(value) {
        return Some(InvalidPermission);
      }
      permission, error := Some(value), None;
    }

    method ToXml() returns (s: seq<Event>)
      requires scope != null
      ensures s == EntryEvents(Value())
    {
      var inner := scope.ToXml();
      s := [Start(EntryTag, NoType)];
      s := s + (inner + Element(PermissionTag, Show(permission)));
      s := s + [End(EntryTag)];
    }
  }

  ghost function Scopes(list: seq<Entry>): set<Scope>
    reads list
  {
    set e | e in list && e.scope != null :: e.scope
  }

  ghost function Values(list: seq<Entry>): (vs: seq<EntryValue>)
    reads list, Scopes(list)
    ensures |vs| == |list|
    ensures forall i :: 0 <= i < |list| ==> vs[i] == list[i].Value()
  {
    if list == [] then []
    else
      var n := |list| - 1;
      assert list[n] in list;
      assert forall e <- list[..n] :: e in list;
      Values(list[..n]) + [list[n].Value()]
  }

  /** Entries that did not change have their old values. */
  twostate lemma SameValues(list: seq<Entry>)
    requires forall e <- list :: unchanged(e) && (e.scope != null ==> unchanged(e.scope))
    ensures Values(list) == old(Values(list))
  {
    assert forall i :: 0 <= i < |list| ==> list[i] in list && list[i].Value() == old(list[i].Value());
  }

  /** When only the last entry changed, only its value did. */
  twostate lemma LastChanged(list: seq<Entry>)
    requires list != []
    requires forall e <- list[..|list| - 1] :: unchanged(e) && (e.scope != null ==> unchanged(e.scope))
    ensures Values(list) == old(Values(list))[|list| - 1 := list[|list| - 1].Value()]
  {
    var n := |list| - 1;
    SameValues(list[..n]);
    assert Values(list) == Values(list[..n]) + [list[n].Value()];
    assert old(Values(list)) == old(Values(list[..n])) + [old(list[n].Value())];
  }

  class Entries {
    var entryList: seq<Entry>

    constructor ()
      ensures entryList == []
    {
      entryList := [];
    }

    method ToXml() returns (s: seq<Event>)
      requires forall e <- entryList :: e.scope != null
      ensures Scoped(Values(entryList)) && s == EntriesEvents(Values(entryList))
    {
      ghost var values := Values(entryList);
      assert Scoped(values);
      var body: seq<Event> := [];
      for i := 0 to |entryList|
        invariant body == AllEntryEvents(values[..i])
      {
        assert entryList[i] in entryList;
        var one := entryList[i].ToXml();
        OneMoreEntry(values, i);
        body := body + one;
      }
      assert values[..|entryList|] == values;
      SameValues(entryList);
      s := [Start(EntriesTag, NoType)] + body + [End(EntriesTag)];
    }
  }

  class Acl {
    var owner: User?
    var entries: Entries?

    constructor ()
      ensures owner == null && entries == null
    {
      owner, entries := null, null;
    }

    ghost function Value(): AclValue
      reads this, owner, entries
      reads if entries == null then [] else entries.entryList
      reads if entries == null then {} else Scopes(entries.entryList)
    {
      AclValue(
        if owner == null then None else Some(owner.Value()),
        if entries == null then None else Some(Values(entries.entryList)))
    }

    method ToXml() returns (s: seq<Event>)
      requires entries != null ==> forall e <- entries.entryList :: e.scope != null
      ensures Printable(Value()) && s == AclEvents(Value())
    {
      var inner: seq<Event> := [];
      if owner != null {
        inner := owner.ToXml();
      }
      if entries != null {
        var list := entries.ToXml();
        inner := inner + list;
        SameValues(entries.entryList);
      }
      s := [Start(AccessControlListTag, NoType)] + inner + [End(AccessControlListTag)];
    }
  }

  datatype Node =
    | AclNode(acl: Acl)
    | UserNode(user: User)
    | EntriesNode(entries: Entries)
    | EntryNode(entry: Entry)
    | ScopeNode(scope: Scope)

  datatype Frame = Frame(tag: Tag, node: Node)

  const ROOT := OtherTag("root")

  ghost predicate Apart(list: seq<Entry>)
    reads list
  {
    && (forall i, j :: 0 <= i < j < |list| ==> list[i] != list[j])
    && (forall i, j :: 0 <= i < j < |list| && list[i].scope != null ==> list[i].scope != list[j].scope)
  }

  class XmlHandler {
    const root: Acl
    var nodes: seq<Frame>
    var currentText: string
    ghost var repr: set<object>  // the node objects of the tree

    ghost predicate Tree()
      reads this, repr
    {
      && root in repr && this !in repr
      && (root.owner != null ==> root.owner in repr)
      && (root.entries != null ==>
            && root.entries in repr
            && (forall e <- root.entries.entryList :: e in repr && (e.scope != null ==> e.scope in repr))
            && Apart(root.entries.entryList))
    }

    ghost function List(): seq<Entry>
      requires Tree() && root.entries != null
      reads this, repr
    {
      root.entries.entryList
    }

    /** The stack is the chain from the root to the node being filled: the root, then the owner, or the
        entries, their last entry and its scope. */
    ghost predicate Stack()
      requires Tree()
      reads this, repr
    {
      && |nodes| <= 4
      && (|nodes| >= 1 ==> nodes[0] == Frame(ROOT, AclNode(root)))
      && (|nodes| == 2 ==>
            || (root.owner != null && nodes[1] == Frame(OwnerTag, UserNode(root.owner)))
            || (root.entries != null && nodes[1] == Frame(EntriesTag, EntriesNode(root.entries))))
      && (|nodes| >= 3 ==>
            && root.entries != null && nodes[1] == Frame(EntriesTag, EntriesNode(root.entries))
            && List() != [] && nodes[2] == Frame(EntryTag, EntryNode(List()[|List()| - 1])))
      && (|nodes| == 4 ==>
            List()[|List()| - 1].scope != null && nodes[3] == Frame(ScopeTag, ScopeNode(List()[|List()| - 1].scope)))
    }

    ghost predicate Valid()
      reads this, repr
    {
      Tree() && Stack()
    }

    ghost function Place(): Place
      reads this
    {
      if |nodes| == 0 then AtNothing
      else if |nodes| == 1 then AtRoot
      else if |nodes| == 2 then (if nodes[1].node.UserNode? then AtOwner else AtEntries)
      else if |nodes| == 3 then AtEntry
      else AtScope
    }

    ghost function Value(): AclValue
      requires Tree()
      reads this, repr
    {
      root.Value()
    }

    /** A step that leaves every entry alone leaves their values alone. */
    twostate lemma SameEntries()
      requires old(Tree()) && Tree()
      requires root.entries == old(root.entries)
      requires root.entries != null ==>
                 && root.entries.entryList == old(root.entries.entryList)
                 && forall e <- root.entries.entryList :: unchanged(e) && (e.scope != null ==> unchanged(e.scope))
      ensures Value().entries == old(Value()).entries
    {
      if root.entries != null {
        SameValues(root.entries.entryList);
      }
    }

    ghost function State(): (p: Parser)
      requires Valid()
      reads this, repr
      ensures Grounded(p)
    {
      Parser(Value(), Place(), currentText)
    }

    constructor (root: Acl)
      requires root.owner == null && root.entries == null
      ensures Valid() && State() == INITIAL && this.root == root && repr == {root}
    {
      this.root := root;
      nodes := [Frame(ROOT, AclNode(root))];
      currentText := "";
      repr := {root};
    }

    /** `startElement`: reset the text, ask the node on top, push what it returns. */
    method StartElement(tag: Tag, attr: TypeAttr) returns (error: Option<Error>)
      requires Valid()
      modifies this, repr
      ensures match OnStart(old(State()), tag, attr)
              case Ok(q) => error == None && Valid() && State() == q && fresh(repr - old(repr))
              case Err(e) => error == Some(e)
    {
      ClearText();
      StartIgnoresText(old(State()), tag, attr);
      error := AskTop(tag, attr);
    }

    method AskTop(tag: Tag, attr: TypeAttr) returns (error: Option<Error>)
      requires Valid() && currentText == ""
      modifies this, repr
      ensures match OnStart(old(State()), tag, attr)
              case Ok(q) => error == None && Valid() && State() == q && fresh(repr - old(repr))
              case Err(e) => error == Some(e)
    {
      error := None;
      if nodes == [] {
        return Some(NoNode);
      }
      match nodes[|nodes| - 1].node
      case AclNode(acl) => StartAtRoot(tag, attr);
      case UserNode(_) =>
      case EntriesNode(entries) => StartAtEntries(tag, attr, entries);
      case EntryNode(entry) => error := StartAtEntry(tag, attr, entry);
      case ScopeNode(scope) => error := StartAtScope(tag, attr, scope);
    }

    method ClearText()
      requires Valid()
      modifies `currentText
      ensures Valid() && State() == old(State()).(text := "")
    {
      currentText := "";
      SameEntries();
    }

    method StartAtRoot(tag: Tag, attr: TypeAttr)
      requires Valid() && Place().AtRoot? && currentText == ""
      modifies this, repr
      ensures Valid() && Ok(State()) == OnStart(old(State()), tag, attr) && fresh(repr - old(repr))
    {
      if tag == OwnerTag {
        var user := new User();
        root.owner := user;
        repr := repr + {user};
        nodes := nodes + [Frame(tag, UserNode(user))];
        SameEntries();
      } else if tag == EntriesTag {
        var entries := new Entries();
        root.entries := entries;
        repr := repr + {entries};
        nodes := nodes + [Frame(tag, EntriesNode(entries))];
      }
    }

    method StartAtEntries(tag: Tag, attr: TypeAttr, entries: Entries)
      requires Valid() && Place().AtEntries? && currentText == "" && entries == root.entries
      modifies this, repr
      ensures Valid() && Ok(State()) == OnStart(old(State()), tag, attr) && fresh(repr - old(repr))
    {
      if tag == EntryTag {
        ghost var list := entries.entryList;
        var entry := new Entry();
        entries.entryList := entries.entryList + [entry];
        repr := repr + {entry};
        nodes := nodes + [Frame(tag, EntryNode(entry))];
        assert entries.entryList[..|list|] == list;
        SameValues(list);
      }
    }

    method StartAtEntry(tag: Tag, attr: TypeAttr, entry: Entry) returns (error: Option<Error>)
      requires Valid() && Place().AtEntry? && currentText == "" && entry == List()[|List()| - 1]
      modifies this, repr
      ensures match OnStart(old(State()), tag, attr)
              case Ok(q) => error == None && Valid() && State() == q && fresh(repr - old(repr))
              case Err(e) => error == Some(e)
    {
      error := None;
      if tag == ScopeTag {
        match attr
        case NoType => error := Some(MissingScopeType);
        case UnknownType(_) => error := Some(InvalidScopeType);
        case KnownType(kind) => OpenScope(kind, entry);
      }
    }

    method StartAtScope(tag: Tag, attr: TypeAttr, scope: Scope) returns (error: Option<Error>)
      requires Valid() && Place().AtScope? && currentText == "" && scope == List()[|List()| - 1].scope
      ensures match OnStart(State(), tag, attr)
              case Ok(q) => error == None && State() == q
              case Err(e) => error == Some(e)
    {
      error := if Allowed(scope.kind, tag) then None else Some(ElementNotAllowed);
    }

    method OpenScope(kind: ScopeType, entry: Entry)
      requires Valid() && Place().AtEntry? && currentText == "" && entry == List()[|List()| - 1]
      modifies this, repr
      ensures Valid() && Ok(State()) == OnStart(old(State()), ScopeTag, KnownType(kind)) && fresh(repr - old(repr))
    {
      var scope := new Scope(kind);
      entry.scope := scope;
      repr := repr + {scope};
      nodes := nodes + [Frame(ScopeTag, ScopeNode(scope))];
      LastChanged(root.entries.entryList);
    }

    /** `endElement`: hand the text to the node on top, pop it when its own element ends. */
    method EndElement(tag: Tag) returns (error: Option<Error>)
      requires Valid()
      modifies this, repr
      ensures match OnEnd(old(State()), tag)
              case Ok(q) => error == None && Valid() && State() == q && repr == old(repr)
              case Err(e) => error == Some(e)
    {
      error := FillTop(tag);
      if error.None? {
        Pop(tag);
      }
    }

    method FillTop(tag: Tag) returns (error: Option<Error>)
      requires Valid()
      modifies repr
      ensures match Filled(old(State()), tag)
              case Ok(acl) => error == None && Valid() && State() == old(State()).(acl := acl)
              case Err(e) => error == Some(e)
    {
      error := None;
      if nodes == [] {
        return Some(NoNode);
      }
      match nodes[|nodes| - 1].node
      case AclNode(_) =>
      case UserNode(user) => FillOwner(user, tag);
      case EntriesNode(_) =>
      case EntryNode(entry) => error := FillEntry(entry, tag);
      case ScopeNode(scope) => FillScope(scope, tag);
    }

    method FillOwner(user: User, tag: Tag)
      requires Valid() && Place().AtOwner? && user == root.owner
      modifies repr
      ensures Valid() && Ok(Value()) == Filled(old(State()), tag)
    {
      user.EndElement(tag, currentText);
      SameEntries();
    }

    method FillEntry(entry: Entry, tag: Tag) returns (error: Option<Error>)
      requires Valid() && Place().AtEntry? && entry == List()[|List()| - 1]
      modifies repr
      ensures match Filled(old(State()), tag)
              case Ok(acl) => error == None && Valid() && Value() == acl
              case Err(e) => error == Some(e)
    {
      error := None;
      if tag == PermissionTag {
        error := entry.SetPermission(currentText);
        LastChanged(root.entries.entryList);
      }
    }

    method FillScope(scope: Scope, tag: Tag)
      requires Valid() && Place().AtScope? && scope == List()[|List()| - 1].scope
      modifies repr
      ensures Valid() && Ok(Value()) == Filled(old(State()), tag)
    {
      scope.EndElement(tag, currentText);
      LastChanged(root.entries.entryList);
    }

    lemma TopTag()
      requires Valid() && nodes != []
      ensures nodes[|nodes| - 1].tag == PushedAs(Place())
    {
    }

    method Pop(tag: Tag)
      requires Valid() && nodes != []
      modifies `nodes, `currentText
      ensures Valid() && State() == Parser(old(State()).acl, Popped(old(State()).at, tag), "")
    {
      TopTag();
      if nodes[|nodes| - 1].tag == tag {
        PopNode();
      }
      ClearText();
    }

    method PopNode()
      requires Valid() && nodes != []
      modifies `nodes
      ensures Valid() && State() == old(State()).(at := Below(old(State()).at))
    {
      nodes := nodes[..|nodes| - 1];
      SameEntries();
    }

    /** `characters`. */
    method Characters(content: string)
      requires Valid()
      modifies `currentText
      ensures Valid() && Ok(State()) == Step(old(State()), Text(content))
    {
      currentText := currentText + content;
      SameEntries();
    }

    /** A whole document, event by event. */
    method Feed(events: seq<Event>) returns (error: Option<Error>)
      requires Valid()
      modifies this, repr
      ensures match Drive(old(State()), events)
              case Ok(q) => error == None && Valid() && State() == q
              case Err(e) => error == Some(e)
    {
      error := None;
      ghost var first := State();
      for i := 0 to |events|
        invariant Valid() && fresh(repr - old(repr)) && error == None
        invariant Drive(first, events) == Drive(State(), events[i..])
      {
        assert events[i..][0] == events[i] && events[i..][1..] == events[i + 1..];
        error := Handle(events[i]);
        if error.Some? {
          return;
        }
      }
    }

    method Handle(event: Event) returns (error: Option<Error>)
      requires Valid()
      modifies this, repr
      ensures match Step(old(State()), event)
              case Ok(q) => error == None && Valid() && State() == q && fresh(repr - old(repr))
              case Err(e) => error == Some(e)
    {
      error := None;
      match event
      case Start(tag, attr) => error := StartElement(tag, attr);
      case Text(text) => Characters(text);
      case End(tag) => error := EndElement(tag);
    }
  }

  /** Parsing, into a new ACL object, the events printed for `a`: a well-formed ACL comes back whole, with
      only the root left on the stack. */
  method ParsePrinted(ghost a: AclValue, events: seq<Event>) returns (handler: XmlHandler, error: Option<Error>)
    requires Printable(a) && events == AclEvents(a)
    ensures fresh(handler)
    ensures WellFormed(a) ==> error == None && handler.Valid() && handler.State() == Parser(a, AtRoot, "")
  {
    var copy := new Acl();
    handler := new XmlHandler(copy);
    error := handler.Feed(events);
    RoundTripIff(a);
  }

  /** Printing an ACL object and parsing it into a new one. */
  method PrintAndParse(acl: Acl) returns (handler: XmlHandler, error: Option<Error>)
    requires acl.entries != null ==> forall e <- acl.entries.entryList :: e.scope != null
    ensures Printable(old(acl.Value()))
    ensures WellFormed(old(acl.Value())) ==>
              error == None && handler.Valid() && handler.State() == Parser(old(acl.Value()), AtRoot, "")
  {
    ghost var value := acl.Value();
    var events := PrintedEvents(acl);
    handler, error := ParsePrinted(value, events);
  }

  method PrintedEvents(acl: Acl) returns (events: seq<Event>)
    requires acl.entries != null ==> forall e <- acl.entries.entryList :: e.scope != null
    ensures Printable(old(acl.Value())) && events == AclEvents(old(acl.Value()))
  {
    events := acl.ToXml();
    if acl.entries != null {
      SameValues(acl.entries.entryList);
    }
  }
}
