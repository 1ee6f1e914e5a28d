/**
 * Accounts, domains and mailboxes, and the views the mail plane reads:
 * src/mailboxes/mailbox.service.ts, src/domains and drizzle/0002_platform_domains_and_mailbox_auth.sql.
 */
module Tenancy {
  import opened Prelude
  import opened Addresses

  datatype Status = Pending | Active | Suspended

  datatype Kind = Platform | Custom

  datatype Domain = Domain(account: Option<Id>, kind: Kind, name: string, verified: bool, active: bool)

  datatype Mailbox = Mailbox(domain: Id, account: Id, localPart: string, active: bool)

  datatype Tables = Tables(accounts: map<Id, Status>, domains: map<Id, Domain>, mailboxes: map<Id, Mailbox>, nextId: Id)

  datatype Reply = Ok(id: Id) | NotFound | Conflict | Rejected

  // ----- The views -----

  predicate IsActive(t: Tables, account: Id) {
    account in t.accounts && t.accounts[account].Active?
  }

  /** The WHERE clause of v_postfix_domains over the left join. */
  predicate Served(t: Tables, d: Domain) {
    d.active && d.verified && (d.kind.Platform? || (d.account.Some? && IsActive(t, d.account.value)))
  }

  function PostfixDomains(t: Tables): set<string> {
    set d | d in t.domains && Served(t, t.domains[d]) :: t.domains[d].name
  }

  /** The WHERE clause shared by v_dovecot_users and v_postfix_senders, over their inner joins. */
  predicate Admitted(t: Tables, m: Mailbox) {
    m.active && m.domain in t.domains && t.domains[m.domain].active && t.domains[m.domain].verified && IsActive(t, m.account)
  }

  function Email(t: Tables, m: Mailbox): string
    requires m.domain in t.domains
  {
    Joined(Address(m.localPart, t.domains[m.domain].name))
  }

  /** The mailboxes behind the rows of v_dovecot_users. */
  function Users(t: Tables): set<Id> {
    set m | m in t.mailboxes && Admitted(t, t.mailboxes[m])
  }

  function DovecotUsers(t: Tables): set<string> {
    set m | m in Users(t) :: Email(t, t.mailboxes[m])
  }

  // ----- What the tables keep -----

  const RESERVED: set<string> := {
    "postmaster", "abuse", "hostmaster", "webmaster", "dmarc", "admin", "administrator", "root", "security",
    "noreply", "no-reply", "nao-responda", "mailer-daemon", "support", "suporte", "contato", "contact",
    "billing", "faturamento", "info", "help", "ajuda", "stampyx" }

  /** Lower-cased; outside ASCII no single character lowers to a letter of a reserved name. */
  predicate IsReserved(localPart: string) {
    Fold(localPart) in RESERVED
  }

  /** Foreign keys and the ownership check. */
  ghost predicate References(t: Tables) {
    && (forall d | d in t.domains :: t.domains[d].account.Some? ==> t.domains[d].account.value in t.accounts)
    && (forall d | d in t.domains :: t.domains[d].kind.Custom? <==> t.domains[d].account.Some?)
    && (forall m | m in t.mailboxes :: t.mailboxes[m].domain in t.domains && t.mailboxes[m].account in t.accounts)
    && (forall i | i in t.accounts || i in t.domains || i in t.mailboxes :: i < t.nextId)
  }

  /** A mailbox on a custom domain belongs to the account that owns the domain. */
  ghost predicate SameOwner(t: Tables) {
    forall m | m in t.mailboxes && t.mailboxes[m].domain in t.domains :: OwnerAgrees(t.domains[t.mailboxes[m].domain], t.mailboxes[m])
  }

  predicate OwnerAgrees(d: Domain, m: Mailbox) {
    d.kind.Custom? ==> d.account == Some(m.account)
  }

  /** The unique indexes. */
  ghost predicate UniqueNames(t: Tables) {
    && (forall i, j | i in t.domains && j in t.domains && t.domains[i].name == t.domains[j].name :: i == j)
    && (forall i, j | i in t.mailboxes && j in t.mailboxes && t.mailboxes[i].domain == t.mailboxes[j].domain
                      && t.mailboxes[i].localPart == t.mailboxes[j].localPart :: i == j)
  }

  predicate OnPlatform(t: Tables, m: Mailbox) {
    m.domain in t.domains && t.domains[m.domain].kind.Platform?
  }

  /** One platform address per account, none of them reserved. */
  ghost predicate PlatformAddresses(t: Tables) {
    && (forall i, j | i in t.mailboxes && j in t.mailboxes && t.mailboxes[i].account == t.mailboxes[j].account
                      && OnPlatform(t, t.mailboxes[i]) && OnPlatform(t, t.mailboxes[j]) :: i == j)
    && (forall m | m in t.mailboxes && OnPlatform(t, t.mailboxes[m]) :: !IsReserved(t.mailboxes[m].localPart))
  }

  ghost predicate Sound(t: Tables) {
    References(t) && SameOwner(t) && UniqueNames(t) && PlatformAddresses(t)
  }

  // ----- Requests -----

  datatype Request =
    | Provision(status: Status)
    | SetStatus(account: Id, status: Status)
    | DeleteAccount(actor: Id, account: Id)
    | CreateDomain(account: Id, name: string)
    | Verify(account: Id, domain: Id)
    | DeleteDomain(account: Id, domain: Id)
    | Seed(name: string)
    | CreateMailbox(account: Id, domain: Id, localPart: string)
    | CreateOnPlatform(account: Id, domain: Id, localPart: string)
    | DeleteMailbox(account: Id, mailbox: Id)
    // an operator switching a row's active column
    | ToggleDomain(domain: Id, active: bool)
    | ToggleMailbox(mailbox: Id, active: bool)

  predicate NameTaken(t: Tables, name: string) {
    exists d | d in t.domains :: t.domains[d].name == name
  }

  predicate ExistsAt(t: Tables, domain: Id, localPart: string) {
    exists m | m in t.mailboxes :: t.mailboxes[m].domain == domain && t.mailboxes[m].localPart == localPart
  }

  predicate OwnsDomain(t: Tables, account: Id, d: Id) {
    d in t.domains && t.domains[d].account == Some(account)
  }

  /** ON DELETE CASCADE from a set of domains, and from the account when there is one. */
  function Without(t: Tables, account: Option<Id>, domains: set<Id>): Tables {
    Tables(if account.Some? then t.accounts - {account.value} else t.accounts,
           t.domains - domains,
           map m | m in t.mailboxes && t.mailboxes[m].domain !in domains && Some(t.mailboxes[m].account) != account :: t.mailboxes[m],
           t.nextId)
  }

  function DomainsOf(t: Tables, account: Id): set<Id> {
    set d | d in t.domains && t.domains[d].account == Some(account)
  }

  function AddDomain(t: Tables, d: Domain): Tables {
    t.(domains := t.domains[t.nextId := d], nextId := t.nextId + 1)
  }

  function AddMailbox(t: Tables, m: Mailbox): Tables {
    t.(mailboxes := t.mailboxes[t.nextId := m], nextId := t.nextId + 1)
  }

  predicate HasPlatformAddress(t: Tables, account: Id) {
    exists m | m in t.mailboxes :: t.mailboxes[m].account == account && OnPlatform(t, t.mailboxes[m])
  }

  predicate IsPlatformAddress(t: Tables, m: Id, account: Id, domain: Id, localPart: string) {
    m in t.mailboxes && t.mailboxes[m].account == account && OnPlatform(t, t.mailboxes[m])
    && t.mailboxes[m].domain == domain && t.mailboxes[m].localPart == localPart
  }

  ghost predicate Step(t: Tables, r: Request, t': Tables, reply: Reply) {
    match r
    case Provision(status) => t' == t.(accounts := t.accounts[t.nextId := status], nextId := t.nextId + 1) && reply == Ok(t.nextId)
    case SetStatus(a, status) =>
      if a !in t.accounts then t' == t && reply.NotFound?
      else t' == t.(accounts := t.accounts[a := status]) && reply == Ok(a)
    case DeleteAccount(actor, a) =>
      if actor == a then t' == t && reply.Rejected?
      else if a !in t.accounts then t' == t && reply.NotFound?
      else t' == Without(t, Some(a), DomainsOf(t, a)) && reply == Ok(a)
    case CreateDomain(a, name) =>
      if NameTaken(t, name) then t' == t && reply.Conflict?
      else if a !in t.accounts then t' == t && reply.Rejected?
      else t' == AddDomain(t, Domain(Some(a), Custom, name, false, true)) && reply == Ok(t.nextId)
    case Verify(a, d) =>
      if !OwnsDomain(t, a, d) then t' == t && reply.NotFound?
      else if t.domains[d].verified then t' == t && reply == Ok(d)
      // whether the DNS record is published is up to the outside
      else (t' == t.(domains := t.domains[d := t.domains[d].(verified := true)]) && reply == Ok(d)) || (t' == t && reply.Conflict?)
    case DeleteDomain(a, d) =>
      if !OwnsDomain(t, a, d) then t' == t && reply.NotFound?
      else t' == Without(t, None, {d}) && reply == Ok(d)
    case Seed(name) =>
      if NameTaken(t, name) then
        t' == t && (reply.Conflict? <==> exists d :: d in t.domains && t.domains[d].name == name && t.domains[d].kind.Custom?)
      else t' == AddDomain(t, Domain(None, Platform, name, true, true)) && reply == Ok(t.nextId)
    case CreateMailbox(a, d, localPart) =>
      if !OwnsDomain(t, a, d) then t' == t && reply.NotFound?
      else if ExistsAt(t, d, localPart) then t' == t && reply.Conflict?
      else t' == AddMailbox(t, Mailbox(d, a, localPart, true)) && reply == Ok(t.nextId)
    case CreateOnPlatform(a, d, localPart) => ClaimStep(t, a, d, localPart, t', reply)
    case DeleteMailbox(a, m) =>
      if m !in t.mailboxes || t.mailboxes[m].account != a then t' == t && reply.NotFound?
      else t' == t.(mailboxes := t.mailboxes - {m}) && reply == Ok(m)
    case ToggleDomain(d, active) => t' == if d in t.domains then t.(domains := t.domains[d := t.domains[d].(active := active)]) else t
    case ToggleMailbox(m, active) => t' == if m in t.mailboxes then t.(mailboxes := t.mailboxes[m := t.mailboxes[m].(active := active)]) else t
  }

  ghost predicate ClaimStep(t: Tables, a: Id, d: Id, localPart: string, t': Tables, reply: Reply) {
    if d !in t.domains || !t.domains[d].kind.Platform? || !t.domains[d].active then t' == t && reply.NotFound?
    else if HasPlatformAddress(t, a) then
      && t' == t
      && if exists m :: IsPlatformAddress(t, m, a, d, localPart)
         then reply.Ok? && IsPlatformAddress(t, reply.id, a, d, localPart)
         else reply.Conflict?
    else if IsReserved(localPart) || ExistsAt(t, d, localPart) then t' == t && reply.Conflict?
    else if a !in t.accounts then t' == t && reply.Rejected?
    else t' == AddMailbox(t, Mailbox(d, a, localPart, true)) && reply == Ok(t.nextId)
  }

  // ----- Every request keeps the tables sound -----

  lemma AddDomainKeepsReferences(t: Tables, d: Domain)
    requires References(t) && (d.account.Some? ==> d.account.value in t.accounts) && (d.kind.Custom? <==> d.account.Some?)
    ensures References(AddDomain(t, d))
  {
  }

  lemma OldRowsKeepDomains(t: Tables, d: Domain, m: Id)
    requires References(t) && m in t.mailboxes
    ensures t.mailboxes[m].domain in t.domains && AddDomain(t, d).domains[t.mailboxes[m].domain] == t.domains[t.mailboxes[m].domain]
  {
  }

  lemma AddDomainKeepsSound(t: Tables, d: Domain)
    requires Sound(t) && !NameTaken(t, d.name)
    requires (d.account.Some? ==> d.account.value in t.accounts) && (d.kind.Custom? <==> d.account.Some?)
    ensures Sound(AddDomain(t, d))
  {
    var t' := AddDomain(t, d);
    AddDomainKeepsReferences(t, d);
    forall m | m in t.mailboxes
      ensures t.mailboxes[m].domain in t.domains && t'.domains[t.mailboxes[m].domain] == t.domains[t.mailboxes[m].domain]
    {
      OldRowsKeepDomains(t, d, m);
    }
    AddDomainKeepsNames(t, d);
  }

  lemma AddDomainKeepsNames(t: Tables, d: Domain)
    requires UniqueNames(t) && !NameTaken(t, d.name) && t.nextId !in t.domains
    ensures UniqueNames(AddDomain(t, d))
  {
  }

  lemma AddMailboxKeepsNames(t: Tables, m: Mailbox)
    requires UniqueNames(t) && !ExistsAt(t, m.domain, m.localPart) && t.nextId !in t.mailboxes
    ensures UniqueNames(AddMailbox(t, m))
  {
  }

  lemma AddMailboxKeepsAddresses(t: Tables, m: Mailbox)
    requires PlatformAddresses(t) && t.nextId !in t.mailboxes
    requires OnPlatform(t, m) ==> !HasPlatformAddress(t, m.account) && !IsReserved(m.localPart)
    ensures PlatformAddresses(AddMailbox(t, m))
  {
    var t' := AddMailbox(t, m);
    assert forall row :: OnPlatform(t', row) <==> OnPlatform(t, row);
  }

  lemma AddMailboxKeepsOwner(t: Tables, m: Mailbox)
    requires SameOwner(t) && References(t) && m.domain in t.domains && m.account in t.accounts && OwnerAgrees(t.domains[m.domain], m)
    ensures SameOwner(AddMailbox(t, m)) && References(AddMailbox(t, m))
  {
  }

  lemma AddMailboxKeepsSound(t: Tables, m: Mailbox)
    requires Sound(t) && m.domain in t.domains && m.account in t.accounts
    requires !ExistsAt(t, m.domain, m.localPart) && OwnerAgrees(t.domains[m.domain], m)
    requires OnPlatform(t, m) ==> !HasPlatformAddress(t, m.account) && !IsReserved(m.localPart)
    ensures Sound(AddMailbox(t, m))
  {
    AddMailboxKeepsOwner(t, m);
    AddMailboxKeepsNames(t, m);
    AddMailboxKeepsAddresses(t, m);
  }

  predicate SameDomain(a: Domain, b: Domain) {
    a.name == b.name && a.kind == b.kind && a.account == b.account
  }

  predicate SameMailbox(a: Mailbox, b: Mailbox) {
    a.domain == b.domain && a.account == b.account && a.localPart == b.localPart
  }

  /** The second tables hold some of the rows of the first, in the columns the invariants speak of. */
  ghost predicate Restricts(t: Tables, t': Tables) {
    && (forall d | d in t'.domains :: d in t.domains && SameDomain(t'.domains[d], t.domains[d]))
    && (forall m | m in t'.mailboxes :: m in t.mailboxes && SameMailbox(t'.mailboxes[m], t.mailboxes[m]))
  }

  lemma RestrictKeepsOwner(t: Tables, t': Tables)
    requires SameOwner(t) && Restricts(t, t')
    ensures SameOwner(t')
  {
    forall m | m in t'.mailboxes && t'.mailboxes[m].domain in t'.domains
      ensures OwnerAgrees(t'.domains[t'.mailboxes[m].domain], t'.mailboxes[m])
    {
      assert OwnerAgrees(t.domains[t.mailboxes[m].domain], t.mailboxes[m]);
    }
  }

  lemma RestrictKeepsNames(t: Tables, t': Tables)
    requires UniqueNames(t) && Restricts(t, t')
    ensures UniqueNames(t')
  {
    forall i, j | i in t'.domains && j in t'.domains && t'.domains[i].name == t'.domains[j].name
      ensures i == j
    {
      assert t.domains[i].name == t.domains[j].name;
    }
    forall i, j | i in t'.mailboxes && j in t'.mailboxes && t'.mailboxes[i].domain == t'.mailboxes[j].domain
                  && t'.mailboxes[i].localPart == t'.mailboxes[j].localPart
      ensures i == j
    {
      assert t.mailboxes[i].localPart == t.mailboxes[j].localPart;
    }
  }

  lemma RestrictKeepsAddresses(t: Tables, t': Tables)
    requires PlatformAddresses(t) && Restricts(t, t')
    ensures PlatformAddresses(t')
  {
    forall m | m in t'.mailboxes && OnPlatform(t', t'.mailboxes[m])
      ensures OnPlatform(t, t.mailboxes[m])
    {
    }
  }

  lemma RestrictKeepsSound(t: Tables, t': Tables)
    requires Sound(t) && Restricts(t, t') && References(t')
    ensures Sound(t')
  {
    RestrictKeepsOwner(t, t');
    RestrictKeepsNames(t, t');
    RestrictKeepsAddresses(t, t');
  }

  lemma WithoutKeepsReferences(t: Tables, account: Option<Id>, domains: set<Id>)
    requires References(t)
    requires account.Some? ==> DomainsOf(t, account.value) <= domains
    ensures References(Without(t, account, domains))
  {
    var t' := Without(t, account, domains);
    forall d | d in t'.domains && t'.domains[d].account.Some?
      ensures t'.domains[d].account.value in t'.accounts
    {
      if account.Some? {
        assert d !in DomainsOf(t, account.value);
      }
    }
    forall m | m in t'.mailboxes
      ensures t'.mailboxes[m].domain in t'.domains && t'.mailboxes[m].account in t'.accounts
    {
      assert t.mailboxes[m].domain in t.domains;
    }
  }

  lemma WithoutKeepsSound(t: Tables, account: Option<Id>, domains: set<Id>)
    requires Sound(t)
    requires account.Some? ==> DomainsOf(t, account.value) <= domains
    ensures Sound(Without(t, account, domains))
  {
    WithoutKeepsReferences(t, account, domains);
    RestrictKeepsSound(t, Without(t, account, domains));
  }

  lemma UpdateDomainKeepsReferences(t: Tables, d: Id, row: Domain)
    requires References(t) && d in t.domains && SameDomain(row, t.domains[d])
    ensures References(t.(domains := t.domains[d := row]))
  {
  }

  /** Columns that the invariants do not speak of may change freely. */
  lemma UpdateDomainKeepsSound(t: Tables, d: Id, row: Domain)
    requires Sound(t) && d in t.domains && SameDomain(row, t.domains[d])
    ensures Sound(t.(domains := t.domains[d := row]))
  {
    UpdateDomainKeepsReferences(t, d, row);
    RestrictKeepsSound(t, t.(domains := t.domains[d := row]));
  }

  lemma UpdateMailboxKeepsReferences(t: Tables, m: Id, row: Mailbox)
    requires References(t) && m in t.mailboxes && SameMailbox(row, t.mailboxes[m])
    ensures References(t.(mailboxes := t.mailboxes[m := row]))
  {
  }

  lemma UpdateMailboxKeepsSound(t: Tables, m: Id, row: Mailbox)
    requires Sound(t) && m in t.mailboxes && SameMailbox(row, t.mailboxes[m])
    ensures Sound(t.(mailboxes := t.mailboxes[m := row]))
  {
    UpdateMailboxKeepsReferences(t, m, row);
    RestrictKeepsSound(t, t.(mailboxes := t.mailboxes[m := row]));
  }

  lemma DropMailboxKeepsSound(t: Tables, m: Id)
    requires Sound(t)
    ensures Sound(t.(mailboxes := t.mailboxes - {m}))
  {
    RestrictKeepsSound(t, t.(mailboxes := t.mailboxes - {m}));
  }

  lemma AccountKeepsReferences(t: Tables, a: Id, status: Status, next: Id)
    requires References(t) && a < next && t.nextId <= next
    ensures References(t.(accounts := t.accounts[a := status], nextId := next))
  {
  }

  lemma AccountKeepsSound(t: Tables, a: Id, status: Status, next: Id)
    requires Sound(t) && a < next && t.nextId <= next
    ensures Sound(t.(accounts := t.accounts[a := status], nextId := next))
  {
    AccountKeepsReferences(t, a, status, next);
    RestrictKeepsSound(t, t.(accounts := t.accounts[a := status], nextId := next));
  }

  lemma ClaimKeepsSound(t: Tables, a: Id, d: Id, localPart: string, t': Tables, reply: Reply)
    requires Sound(t) && ClaimStep(t, a, d, localPart, t', reply)
    ensures Sound(t')
  {
    if t' != t {
      AddMailboxKeepsSound(t, Mailbox(d, a, localPart, true));
    }
  }

  lemma AccountStepKeepsSound(t: Tables, r: Request, t': Tables, reply: Reply)
    requires Sound(t) && Step(t, r, t', reply)
    requires r.Provision? || r.SetStatus? || r.DeleteAccount?
    ensures Sound(t')
  {
    match r
    case Provision(status) => AccountKeepsSound(t, t.nextId, status, t.nextId + 1);
    case SetStatus(a, status) =>
      if a in t.accounts {
        AccountKeepsSound(t, a, status, t.nextId);
      }
    case DeleteAccount(_, a) => WithoutKeepsSound(t, Some(a), DomainsOf(t, a));
  }

  lemma DomainStepKeepsSound(t: Tables, r: Request, t': Tables, reply: Reply)
    requires Sound(t) && Step(t, r, t', reply)
    requires r.CreateDomain? || r.Verify? || r.DeleteDomain? || r.Seed? || r.ToggleDomain?
    ensures Sound(t')
  {
    match r
    case CreateDomain(a, name) =>
      if t' != t {
        AddDomainKeepsSound(t, Domain(Some(a), Custom, name, false, true));
      }
    case Verify(a, d) =>
      if t' != t && OwnsDomain(t, a, d) {
        UpdateDomainKeepsSound(t, d, t.domains[d].(verified := true));
      }
    case DeleteDomain(a, d) => WithoutKeepsSound(t, None, {d});
    case Seed(name) =>
      if t' != t {
        AddDomainKeepsSound(t, Domain(None, Platform, name, true, true));
      }
    case ToggleDomain(d, active) =>
      if d in t.domains {
        UpdateDomainKeepsSound(t, d, t.domains[d].(active := active));
      }
  }

  lemma MailboxStepKeepsSound(t: Tables, r: Request, t': Tables, reply: Reply)
    requires Sound(t) && Step(t, r, t', reply)
    requires r.CreateMailbox? || r.CreateOnPlatform? || r.DeleteMailbox? || r.ToggleMailbox?
    ensures Sound(t')
  {
    match r
    case CreateMailbox(a, d, localPart) =>
      if t' != t {
        AddMailboxKeepsSound(t, Mailbox(d, a, localPart, true));
      }
    case CreateOnPlatform(a, d, localPart) => ClaimKeepsSound(t, a, d, localPart, t', reply);
    case DeleteMailbox(a, m) => DropMailboxKeepsSound(t, m);
    case ToggleMailbox(m, active) =>
      if m in t.mailboxes {
        UpdateMailboxKeepsSound(t, m, t.mailboxes[m].(active := active));
      }
  }

  lemma StepKeepsSound(t: Tables, r: Request, t': Tables, reply: Reply)
    requires Sound(t) && Step(t, r, t', reply)
    ensures Sound(t')
  {
    if r.Provision? || r.SetStatus? || r.DeleteAccount? {
      AccountStepKeepsSound(t, r, t', reply);
    } else if r.CreateDomain? || r.Verify? || r.DeleteDomain? || r.Seed? || r.ToggleDomain? {
      DomainStepKeepsSound(t, r, t', reply);
    } else {
      MailboxStepKeepsSound(t, r, t', reply);
    }
  }

  ghost predicate IsRun(states: seq<Tables>, requests: seq<Request>, replies: seq<Reply>) {
    && |states| == |requests| + 1 == |replies| + 1
    && states[0].accounts == map[] && states[0].domains == map[] && states[0].mailboxes == map[]
    && forall i | 0 <= i < |requests| :: Step(states[i], requests[i], states[i + 1], replies[i])
  }

  lemma {:induction false} TablesStaySound(states: seq<Tables>, requests: seq<Request>, replies: seq<Reply>, n: nat)
    requires IsRun(states, requests, replies) && n < |states|
    ensures Sound(states[n])
  {
    if n > 0 {
      TablesStaySound(states, requests, replies, n - 1);
      StepKeepsSound(states[n - 1], requests[n - 1], states[n], replies[n - 1]);
    }
  }

  // ----- What a request does, and to whom -----

  /** The account in whose name a tenant's request is made. */
  function ActsFor(r: Request): Option<Id> {
    match r
    case CreateDomain(a, _) => Some(a)
    case Verify(a, _) => Some(a)
    case DeleteDomain(a, _) => Some(a)
    case CreateMailbox(a, _, _) => Some(a)
    case CreateOnPlatform(a, _, _) => Some(a)
    case DeleteMailbox(a, _) => Some(a)
    case _ => None
  }

  predicate SameDomainRow(t: Tables, t': Tables, d: Id) {
    (d in t'.domains <==> d in t.domains) && (d in t.domains ==> t'.domains[d] == t.domains[d])
  }

  predicate SameMailboxRow(t: Tables, t': Tables, m: Id) {
    (m in t'.mailboxes <==> m in t.mailboxes) && (m in t.mailboxes ==> t'.mailboxes[m] == t.mailboxes[m])
  }

  lemma RequestsTouchOwnDomains(t: Tables, r: Request, t': Tables, reply: Reply, d: Id)
    requires Sound(t) && Step(t, r, t', reply) && ActsFor(r).Some?
    requires d in t.domains && t.domains[d].account != ActsFor(r)
    ensures t'.accounts == t.accounts && SameDomainRow(t, t', d)
  {
  }

  lemma RequestsTouchOwnMailboxes(t: Tables, r: Request, t': Tables, reply: Reply, m: Id)
    requires Sound(t) && Step(t, r, t', reply) && ActsFor(r).Some?
    requires m in t.mailboxes && Some(t.mailboxes[m].account) != ActsFor(r)
    ensures SameMailboxRow(t, t', m)
  {
    assert OwnerAgrees(t.domains[t.mailboxes[m].domain], t.mailboxes[m]);
  }

  /** A tenant's request touches no account, and no domain or mailbox of another account or of the platform. */
  lemma TenantsAreIsolated(t: Tables, r: Request, t': Tables, reply: Reply)
    requires Sound(t) && Step(t, r, t', reply) && ActsFor(r).Some?
    ensures t'.accounts == t.accounts
    ensures forall d | d in t.domains && t.domains[d].account != ActsFor(r) :: SameDomainRow(t, t', d)
    ensures forall m | m in t.mailboxes && Some(t.mailboxes[m].account) != ActsFor(r) :: SameMailboxRow(t, t', m)
  {
    forall d | d in t.domains && t.domains[d].account != ActsFor(r)
      ensures SameDomainRow(t, t', d)
    {
      RequestsTouchOwnDomains(t, r, t', reply, d);
    }
    forall m | m in t.mailboxes && Some(t.mailboxes[m].account) != ActsFor(r)
      ensures SameMailboxRow(t, t', m)
    {
      RequestsTouchOwnMailboxes(t, r, t', reply, m);
    }
    TenantsKeepAccounts(t, r, t', reply);
  }

  lemma TenantsKeepAccounts(t: Tables, r: Request, t': Tables, reply: Reply)
    requires Step(t, r, t', reply) && ActsFor(r).Some?
    ensures t'.accounts == t.accounts
  {
  }

  /** Which requests may take the row of a mailbox away. */
  predicate RemovesMailbox(t: Tables, r: Request, m: Id)
    requires m in t.mailboxes
  {
    match r
    case DeleteMailbox(a, id) => id == m && a == t.mailboxes[m].account
    case DeleteDomain(a, d) => d == t.mailboxes[m].domain && d in t.domains && t.domains[d].account == Some(a)
    case DeleteAccount(actor, a) => a == t.mailboxes[m].account && actor != a && a in t.accounts
    case _ => false
  }

  predicate RemovesDomain(t: Tables, r: Request, d: Id)
    requires d in t.domains
  {
    match r
    case DeleteDomain(a, id) => id == d && t.domains[d].account == Some(a)
    case DeleteAccount(actor, a) => t.domains[d].account == Some(a) && actor != a && a in t.accounts
    case _ => false
  }

  /** A mailbox goes exactly by a deletion of itself, its domain or its account by who may; until then only the switch of its
      active column changes it. */
  lemma MailboxStaysUntilRemoved(t: Tables, r: Request, t': Tables, reply: Reply, m: Id)
    requires Sound(t) && Step(t, r, t', reply) && m in t.mailboxes
    ensures m in t'.mailboxes <==> !RemovesMailbox(t, r, m)
    ensures m in t'.mailboxes ==>
              t'.mailboxes[m] == if r.ToggleMailbox? && r.mailbox == m then t.mailboxes[m].(active := r.active) else t.mailboxes[m]
  {
    assert OwnerAgrees(t.domains[t.mailboxes[m].domain], t.mailboxes[m]);
  }

  /** So a domain; and it becomes verified only by an accepted verification in its account's name. */
  lemma DomainStaysUntilRemoved(t: Tables, r: Request, t': Tables, reply: Reply, d: Id)
    requires Sound(t) && Step(t, r, t', reply) && d in t.domains
    ensures d in t'.domains <==> !RemovesDomain(t, r, d)
    ensures d in t'.domains ==>
              t'.domains[d] == if r.ToggleDomain? && r.domain == d then t.domains[d].(active := r.active)
                               else if Verifies(t, r, reply, d) then t.domains[d].(verified := true) else t.domains[d]
  {
  }

  predicate Verifies(t: Tables, r: Request, reply: Reply, d: Id)
    requires d in t.domains
  {
    r.Verify? && r.domain == d && t.domains[d].account == Some(r.account) && reply.Ok?
  }

  /** An account goes exactly by a deletion another one orders, and its status is what was last set. */
  lemma AccountStaysUntilRemoved(t: Tables, r: Request, t': Tables, reply: Reply, a: Id)
    requires Sound(t) && Step(t, r, t', reply) && a in t.accounts
    ensures a in t'.accounts <==> !(r.DeleteAccount? && r.account == a && r.actor != a)
    ensures a in t'.accounts ==> t'.accounts[a] == if r.SetStatus? && r.account == a then r.status else t.accounts[a]
  {
  }

  predicate AtAddress(t: Tables, d: Id, localPart: string, m: Id) {
    m in t.mailboxes && t.mailboxes[m].domain == d && t.mailboxes[m].localPart == localPart
  }

  predicate IsPlatformMailbox(t: Tables, a: Id, m: Id) {
    m in t.mailboxes && t.mailboxes[m].account == a && t.mailboxes[m].domain in t.domains && t.domains[t.mailboxes[m].domain].kind.Platform?
  }

  /** A new row comes only from its creation: a custom domain unverified, a platform one verified, a mailbox active, each
      under an id never used before that the reply names. */
  lemma NewRowsAreCreated(t: Tables, r: Request, t': Tables, reply: Reply)
    requires Sound(t) && Step(t, r, t', reply)
    ensures forall m | m in t'.mailboxes && m !in t.mailboxes ::
              && reply == Ok(m) && m == t.nextId < t'.nextId
              && match r
                 case CreateMailbox(a, d, localPart) => t'.mailboxes[m] == Mailbox(d, a, localPart, true)
                 case CreateOnPlatform(a, d, localPart) => t'.mailboxes[m] == Mailbox(d, a, localPart, true)
                 case _ => false
    ensures forall d | d in t'.domains && d !in t.domains ::
              && reply == Ok(d) && d == t.nextId < t'.nextId
              && match r
                 case CreateDomain(a, name) => t'.domains[d] == Domain(Some(a), Custom, name, false, true)
                 case Seed(name) => t'.domains[d] == Domain(None, Platform, name, true, true)
                 case _ => false
    ensures forall a | a in t'.accounts && a !in t.accounts ::
              reply == Ok(a) && a == t.nextId < t'.nextId && r.Provision? && t'.accounts[a] == r.status
  {
  }

  /** When a mailbox is created: on the account's own domain, at a free local part. */
  lemma CreateMailboxExactly(t: Tables, a: Id, d: Id, localPart: string, t': Tables, reply: Reply)
    requires Sound(t) && Step(t, Request.CreateMailbox(a, d, localPart), t', reply)
    ensures reply.NotFound? <==> !(d in t.domains && t.domains[d].account == Some(a))
    ensures reply.Conflict? <==> !reply.NotFound? && exists m :: AtAddress(t, d, localPart, m)
    ensures reply.NotFound? || reply.Conflict? || (reply.Ok? && reply.id in t'.mailboxes && reply.id !in t.mailboxes)
    ensures !reply.Ok? ==> t' == t
  {
    AtAddressExists(t, d, localPart);
  }

  lemma AtAddressExists(t: Tables, d: Id, localPart: string)
    ensures ExistsAt(t, d, localPart) <==> exists m :: AtAddress(t, d, localPart, m)
  {
    if m :| m in t.mailboxes && t.mailboxes[m].domain == d && t.mailboxes[m].localPart == localPart {
      assert AtAddress(t, d, localPart, m);
    }
  }

  lemma PlatformMailboxExists(t: Tables, a: Id)
    ensures HasPlatformAddress(t, a) <==> exists m :: IsPlatformMailbox(t, a, m)
  {
    if m :| m in t.mailboxes && t.mailboxes[m].account == a && OnPlatform(t, t.mailboxes[m]) {
      assert IsPlatformMailbox(t, a, m);
    }
  }

  /** When a platform address is given: on an active platform domain, to an account without one, at a free name that is
      reserved in no spelling. The account that has that very address is answered with it. */
  lemma CreateOnPlatformExactly(t: Tables, a: Id, d: Id, localPart: string, t': Tables, reply: Reply)
    requires Sound(t) && Step(t, Request.CreateOnPlatform(a, d, localPart), t', reply) && a in t.accounts
    ensures reply.NotFound? <==> !(d in t.domains && t.domains[d].kind.Platform? && t.domains[d].active)
    ensures reply.Ok? && reply.id in t.mailboxes <==>
              !reply.NotFound? && exists m :: IsPlatformMailbox(t, a, m) && AtAddress(t, d, localPart, m)
    ensures reply.Ok? && reply.id !in t.mailboxes <==>
              !reply.NotFound? && Fold(localPart) !in RESERVED
              && (forall m :: !IsPlatformMailbox(t, a, m)) && (forall m :: !AtAddress(t, d, localPart, m))
    ensures reply.Ok? ==> reply.id in t'.mailboxes && AtAddress(t', d, localPart, reply.id) && t'.mailboxes[reply.id].account == a
    ensures reply.NotFound? || reply.Conflict? || reply.Ok?
    ensures !reply.Ok? ==> t' == t
  {
    AtAddressExists(t, d, localPart);
    PlatformMailboxExists(t, a);
    if m :| IsPlatformMailbox(t, a, m) && AtAddress(t, d, localPart, m) {
      assert IsPlatformAddress(t, m, a, d, localPart);
    } else if reply.Ok? && reply.id in t.mailboxes {
      assert IsPlatformAddress(t, reply.id, a, d, localPart);
    }
  }

  /** An account that is not there gets no platform address, whatever it asks for. */
  lemma UnknownAccountGetsNone(t: Tables, a: Id, d: Id, localPart: string, t': Tables, reply: Reply)
    requires Sound(t) && Step(t, Request.CreateOnPlatform(a, d, localPart), t', reply) && a !in t.accounts
    ensures t' == t && !reply.Ok?
    ensures reply.Rejected? <==>
              d in t.domains && t.domains[d].kind.Platform? && t.domains[d].active
              && Fold(localPart) !in RESERVED && forall m :: !AtAddress(t, d, localPart, m)
  {
    AtAddressExists(t, d, localPart);
  }

  /** A verification of an own domain succeeds when the record is found, or was before, and is a conflict otherwise. */
  lemma VerifiedExactly(t: Tables, a: Id, d: Id)
    requires d in t.domains && t.domains[d].account == Some(a)
    ensures t.domains[d].verified ==> forall t', reply | Step(t, Verify(a, d), t', reply) :: t' == t && reply == Ok(d)
    ensures !t.domains[d].verified ==>
              && Step(t, Verify(a, d), t.(domains := t.domains[d := t.domains[d].(verified := true)]), Ok(d))
              && Step(t, Verify(a, d), t, Conflict)
              && forall t', reply | Step(t, Verify(a, d), t', reply) ::
                   (reply == Ok(d) && d in t'.domains && t'.domains[d].verified) || (reply.Conflict? && t' == t)
  {
  }

  /** A platform domain is seeded under a free name; a name taken by a custom domain is a conflict, and one taken by a platform
      domain is none. */
  lemma SeededExactly(t: Tables, name: string, t': Tables, reply: Reply)
    requires Sound(t) && Step(t, Seed(name), t', reply)
    ensures if forall d | d in t.domains :: t.domains[d].name != name
            then reply == Ok(t.nextId) && t.nextId in t'.domains && t'.domains[t.nextId] == Domain(None, Platform, name, true, true)
            else t' == t && (reply.Conflict? <==> exists d :: d in t.domains && t.domains[d].name == name && t.domains[d].kind == Custom)
  {
  }

  /** A new account has the status it is provisioned with. */
  lemma ProvisionedExactly(t: Tables, status: Status, t': Tables, reply: Reply)
    requires Sound(t) && Step(t, Provision(status), t', reply)
    ensures reply.Ok? && reply.id in t'.accounts && reply.id !in t.accounts && t'.accounts[reply.id] == status
  {
  }

  /** When a domain is created: for an account there is, under a name no domain has. */
  lemma CreateDomainExactly(t: Tables, a: Id, name: string, t': Tables, reply: Reply)
    requires Sound(t) && Step(t, Request.CreateDomain(a, name), t', reply)
    ensures reply.Conflict? <==> exists d :: d in t.domains && t.domains[d].name == name
    ensures reply.Ok? <==> !reply.Conflict? && a in t.accounts
    ensures reply.Ok? ==> reply.id in t'.domains && reply.id !in t.domains
    ensures !reply.Ok? ==> t' == t
  {
  }

  /** When a deletion or a verification is answered as not found. */
  lemma NotFoundExactly(t: Tables, r: Request, t': Tables, reply: Reply)
    requires Sound(t) && Step(t, r, t', reply)
    ensures r.DeleteMailbox? ==> (reply.NotFound? <==> !(r.mailbox in t.mailboxes && t.mailboxes[r.mailbox].account == r.account))
    ensures r.DeleteDomain? || r.Verify? ==> (reply.NotFound? <==> !(r.domain in t.domains && t.domains[r.domain].account == Some(r.account)))
    ensures r.Verify? && !reply.NotFound? && t.domains[r.domain].verified ==> reply.Ok? && t' == t
    ensures r.SetStatus? ==> (reply.NotFound? <==> r.account !in t.accounts)
    ensures r.DeleteAccount? ==> (reply.Rejected? <==> r.actor == r.account) && (reply.NotFound? <==> r.actor != r.account && r.account !in t.accounts)
    ensures r.DeleteMailbox? || r.DeleteDomain? || r.SetStatus? || r.DeleteAccount? ==> (reply.Ok? || t' == t)
  {
  }

  // ----- What the mail plane sees -----

  /** A domain is served exactly when it is active and verified, and its account, unless it is a platform domain, is active. */
  lemma ServedExactly(t: Tables, name: string)
    ensures name in PostfixDomains(t) <==>
              exists d :: && d in t.domains && t.domains[d].name == name && t.domains[d].active && t.domains[d].verified
                          && (t.domains[d].kind.Custom? ==>
                                t.domains[d].account.Some? && t.domains[d].account.value in t.accounts
                                && t.accounts[t.domains[d].account.value] == Active)
  {
  }

  /** A mailbox may log in exactly when it, its domain and its account are active and the domain is verified. */
  lemma UsersExactly(t: Tables, email: string)
    ensures email in DovecotUsers(t) <==>
              exists m :: && m in t.mailboxes && t.mailboxes[m].active
                          && t.mailboxes[m].domain in t.domains
                          && t.domains[t.mailboxes[m].domain].active && t.domains[t.mailboxes[m].domain].verified
                          && t.mailboxes[m].account in t.accounts && t.accounts[t.mailboxes[m].account] == Active
                          && email == t.mailboxes[m].localPart + ("@" + t.domains[t.mailboxes[m].domain].name)
  {
    if email in DovecotUsers(t) {
      var m :| m in Users(t) && email == Email(t, t.mailboxes[m]);
    }
  }

  /** A custom domain that is served was verified in its account's name before. */
  predicate VerifiedBefore(requests: seq<Request>, replies: seq<Reply>, n: nat, a: Id, d: Id)
    requires n <= |requests| == |replies|
  {
    exists i | 0 <= i < n :: requests[i] == Verify(a, d) && replies[i].Ok?
  }

  lemma {:induction false} VerifiedMeansAsked(states: seq<Tables>, requests: seq<Request>, replies: seq<Reply>, n: nat, d: Id)
    requires IsRun(states, requests, replies) && n < |states|
    requires d in states[n].domains && states[n].domains[d].kind.Custom? && states[n].domains[d].verified
    ensures states[n].domains[d].account.Some?
    ensures VerifiedBefore(requests, replies, n, states[n].domains[d].account.value, d)
  {
    if n > 0 {
      var t, r, reply := states[n - 1], requests[n - 1], replies[n - 1];
      TablesStaySound(states, requests, replies, n - 1);
      assert Step(t, r, states[n], reply);
      if d in t.domains {
        DomainStaysUntilRemoved(t, r, states[n], reply, d);
        if Verifies(t, r, reply, d) {
          assert requests[n - 1] == Verify(t.domains[d].account.value, d) && replies[n - 1].Ok?;
        } else {
          VerifiedMeansAsked(states, requests, replies, n - 1, d);
          var i :| 0 <= i < n - 1 && requests[i] == Verify(t.domains[d].account.value, d) && replies[i].Ok?;
        }
      } else {
        NewRowsAreCreated(t, r, states[n], reply);
      }
    }
  }

  /** Every mailbox that may log in is on a domain for which mail is accepted. */
  lemma UsersAreOnServedDomains(t: Tables, m: Id)
    requires Sound(t) && m in Users(t)
    ensures t.domains[t.mailboxes[m].domain].name in PostfixDomains(t)
  {
    var row := t.mailboxes[m];
    assert OwnerAgrees(t.domains[row.domain], row);
    assert Served(t, t.domains[row.domain]);
  }

  /** In every reachable state each email in v_dovecot_users is an address on a domain in v_postfix_domains. */
  lemma UsersAreServedEver(states: seq<Tables>, requests: seq<Request>, replies: seq<Reply>, n: nat, email: string)
    requires IsRun(states, requests, replies) && n < |states| && email in DovecotUsers(states[n])
    ensures exists a :: Joined(a) == email && a.domainName in PostfixDomains(states[n])
  {
    var t := states[n];
    TablesStaySound(states, requests, replies, n);
    var m :| m in Users(t) && email == Email(t, t.mailboxes[m]);
    UsersAreOnServedDomains(t, m);
    assert Joined(Address(t.mailboxes[m].localPart, t.domains[t.mailboxes[m].domain].name)) == email;
  }

  /** An email in v_dovecot_users names one mailbox. */
  lemma EmailNamesOneMailbox(t: Tables, i: Id, j: Id)
    requires Sound(t) && i in Users(t) && j in Users(t)
    requires forall d | d in t.domains :: '@' !in t.domains[d].name
    requires Email(t, t.mailboxes[i]) == Email(t, t.mailboxes[j])
    ensures i == j
  {
    var a, b := t.mailboxes[i], t.mailboxes[j];
    SameAddress(Address(a.localPart, t.domains[a.domain].name), Address(b.localPart, t.domains[b.domain].name));
  }

  /** Suspending an account takes exactly its own mailboxes and custom domains out of the views. */
  lemma SuspensionCutsTheAccount(t: Tables, account: Id)
    requires Sound(t) && account in t.accounts
    ensures var t' := t.(accounts := t.accounts[account := Suspended]);
            && (forall m :: m in Users(t') <==> m in Users(t) && t.mailboxes[m].account != account)
            && (forall d | d in t.domains :: Served(t', t.domains[d]) <==> Served(t, t.domains[d]) && t.domains[d].account != Some(account))
  {
  }

  /** Deleting an account takes exactly its own mailboxes and domains, and the mailboxes on those domains are its own. */
  lemma DeletionCutsTheAccount(t: Tables, account: Id)
    requires Sound(t) && account in t.accounts
    ensures var t' := Without(t, Some(account), DomainsOf(t, account));
            && (forall m :: m in t'.mailboxes <==> m in t.mailboxes && t.mailboxes[m].account != account)
            && (forall m | m in t'.mailboxes :: t'.mailboxes[m] == t.mailboxes[m])
            && (forall m :: m in Users(t') <==> m in Users(t) && t.mailboxes[m].account != account)
            && (forall d :: d in t'.domains <==> d in t.domains && t.domains[d].account != Some(account))
  {
    var t' := Without(t, Some(account), DomainsOf(t, account));
    forall m | m in t.mailboxes && t.mailboxes[m].account != account
      ensures t.mailboxes[m].domain !in DomainsOf(t, account)
    {
      assert OwnerAgrees(t.domains[t.mailboxes[m].domain], t.mailboxes[m]);
    }
  }

  // ----- The services -----

  class Tenants {
    var accounts: map<Id, Status>
    var domains: map<Id, Domain>
    var mailboxes: map<Id, Mailbox>
    var nextId: Id

    ghost function Current(): Tables
      reads this
    {
      Tables(accounts, domains, mailboxes, nextId)
    }

    ghost predicate Valid()
      reads this
    {
      Sound(Current())
    }

    constructor ()
      ensures Valid() && Current() == Tables(map[], map[], map[], 0)
    {
      accounts, domains, mailboxes, nextId := map[], map[], map[], 0;
    }

    method CreateDomain(account: Id, name: string) returns (reply: Reply)
      requires Valid()
      modifies this`domains, this`nextId
      ensures Valid() && Step(old(Current()), Request.CreateDomain(account, name), Current(), reply)
    {
      ghost var before := Current();
      if exists d | d in domains :: domains[d].name == name {
        reply := Conflict;
      } else if account !in accounts {
        reply := Rejected;
      } else {
        reply := Ok(nextId);
        domains := domains[nextId := Domain(Some(account), Custom, name, false, true)];
        nextId := nextId + 1;
      }
      StepKeepsSound(before, Request.CreateDomain(account, name), Current(), reply);
    }

    /** A deleted row takes the rows that reference it along. */
    method Cascade(account: Option<Id>, owned: set<Id>)
      modifies this`accounts, this`domains, this`mailboxes
      ensures Current() == Without(old(Current()), account, owned)
    {
      if account.Some? {
        accounts := accounts - {account.value};
      }
      domains := domains - owned;
      mailboxes := map m | m in mailboxes && mailboxes[m].domain !in owned && Some(mailboxes[m].account) != account :: mailboxes[m];
    }

    method DeleteDomain(account: Id, domain: Id) returns (reply: Reply)
      requires Valid()
      modifies this`accounts, this`domains, this`mailboxes
      ensures Valid() && Step(old(Current()), Request.DeleteDomain(account, domain), Current(), reply)
    {
      ghost var before := Current();
      if domain !in domains || domains[domain].account != Some(account) {
        reply := NotFound;
      } else {
        reply := Ok(domain);
        Cascade(None, {domain});
      }
      StepKeepsSound(before, Request.DeleteDomain(account, domain), Current(), reply);
    }

    method InsertMailbox(account: Id, domain: Id, localPart: string) returns (id: Id)
      modifies this`mailboxes, this`nextId
      ensures Current() == AddMailbox(old(Current()), Mailbox(domain, account, localPart, true)) && id == old(nextId)
    {
      id := nextId;
      mailboxes := mailboxes[id := Mailbox(domain, account, localPart, true)];
      nextId := nextId + 1;
    }

    method CreateMailbox(account: Id, domain: Id, localPart: string) returns (reply: Reply)
      requires Valid()
      modifies this`mailboxes, this`nextId
      ensures Valid() && Step(old(Current()), Request.CreateMailbox(account, domain, localPart), Current(), reply)
    {
      ghost var before := Current();
      if domain !in domains || domains[domain].account != Some(account) {
        reply := NotFound;
      } else if exists m | m in mailboxes :: mailboxes[m].domain == domain && mailboxes[m].localPart == localPart {
        reply := Conflict;
      } else {
        var id := InsertMailbox(account, domain, localPart);
        reply := Ok(id);
      }
      StepKeepsSound(before, Request.CreateMailbox(account, domain, localPart), Current(), reply);
    }

    method CreateOnPlatform(account: Id, domain: Id, localPart: string) returns (reply: Reply)
      requires Valid()
      modifies this`mailboxes, this`nextId
      ensures Valid() && Step(old(Current()), Request.CreateOnPlatform(account, domain, localPart), Current(), reply)
    {
      ghost var before := Current();
      if domain !in domains || !domains[domain].kind.Platform? || !domains[domain].active {
        reply := NotFound;
      } else if m :| m in mailboxes && mailboxes[m].account == account
                     && mailboxes[m].domain in domains && domains[mailboxes[m].domain].kind.Platform? {
        assert OnPlatform(before, before.mailboxes[m]);
        reply := if mailboxes[m].domain == domain && mailboxes[m].localPart == localPart then Ok(m) else Conflict;
        assert reply.Ok? ==> IsPlatformAddress(before, m, account, domain, localPart);
      } else if IsReserved(localPart) {
        reply := Conflict;
      } else if exists m | m in mailboxes :: mailboxes[m].domain == domain && mailboxes[m].localPart == localPart {
        reply := Conflict;
      } else if account !in accounts {
        reply := Rejected;
      } else {
        var id := InsertMailbox(account, domain, localPart);
        reply := Ok(id);
      }
      StepKeepsSound(before, Request.CreateOnPlatform(account, domain, localPart), Current(), reply);
    }

    method DeleteMailbox(account: Id, id: Id) returns (reply: Reply)
      requires Valid()
      modifies this`mailboxes
      ensures Valid() && Step(old(Current()), Request.DeleteMailbox(account, id), Current(), reply)
    {
      ghost var before := Current();
      if id !in mailboxes || mailboxes[id].account != account {
        reply := NotFound;
      } else {
        mailboxes := mailboxes - {id};
        reply := Ok(id);
      }
      StepKeepsSound(before, Request.DeleteMailbox(account, id), Current(), reply);
    }

    method SetStatus(account: Id, status: Status) returns (reply: Reply)
      requires Valid()
      modifies this`accounts
      ensures Valid() && Step(old(Current()), Request.SetStatus(account, status), Current(), reply)
    {
      ghost var before := Current();
      if account !in accounts {
        reply := NotFound;
      } else {
        accounts := accounts[account := status];
        reply := Ok(account);
      }
      StepKeepsSound(before, Request.SetStatus(account, status), Current(), reply);
    }

    /** An administrator cannot delete their own account. */
    method DeleteAccount(actor: Id, account: Id) returns (reply: Reply)
      requires Valid()
      modifies this`accounts, this`domains, this`mailboxes
      ensures Valid() && Step(old(Current()), Request.DeleteAccount(actor, account), Current(), reply)
    {
      ghost var before := Current();
      if actor == account {
        reply := Rejected;
      } else if account !in accounts {
        reply := NotFound;
      } else {
        reply := Ok(account);
        var owned := set d | d in domains && domains[d].account == Some(account);
        assert owned == DomainsOf(before, account);
        Cascade(Some(account), owned);
      }
      StepKeepsSound(before, Request.DeleteAccount(actor, account), Current(), reply);
    }
  }
}
