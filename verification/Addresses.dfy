/** Mail addresses as the services take them apart: at the last at sign. */
module Addresses {
  import opened Prelude

  datatype Address = Address(localPart: string, domainName: string)

  /** No address without a local part. */
  function Split(email: string): Option<Address> {
    var at := LastIndexOf(email, '@');
    if at <= 0 then None else Some(Address(email[..at], email[at + 1..]))
  }

  function Joined(a: Address): string {
    a.localPart + ("@" + a.domainName)
  }

  lemma JoinedCut(a: Address)
    requires '@' !in a.domainName
    ensures var email, at := Joined(a), LastIndexOf(Joined(a), '@');
            at == |a.localPart| && email[..at] == a.localPart && email[at + 1..] == a.domainName
  {
    var email, at := Joined(a), |a.localPart|;
    assert email[at] == '@';
    forall i | at < i < |email|
      ensures email[i] != '@'
    {
      assert email[i] == a.domainName[i - at - 1];
    }
    LastIndexIsUnique(email, '@', at);
  }

  /** An address is split where it was put together. */
  lemma SplitAddress(a: Address)
    requires '@' !in a.domainName
    ensures Split(Joined(a)) == if a.localPart == "" then None else Some(a)
  {
    JoinedCut(a);
  }

  /** Whatever splits was put together from its parts. */
  lemma JoinSplit(email: string)
    requires Split(email).Some?
    ensures Joined(Split(email).value) == email
  {
    var at := LastIndexOf(email, '@');
    assert email == email[..at] + ([email[at]] + email[at + 1..]);
  }

  lemma SplitHasNoSecondAt(email: string)
    requires Split(email).Some?
    ensures Split(email).value.localPart != "" && '@' !in Split(email).value.domainName
  {
    var at := LastIndexOf(email, '@');
    var rest := email[at + 1..];
    assert forall i | 0 <= i < |rest| :: rest[i] == email[at + 1 + i];
  }

  /** Two addresses with the same text are the same address. */
  lemma SameAddress(a: Address, b: Address)
    requires '@' !in a.domainName && '@' !in b.domainName && Joined(a) == Joined(b)
    ensures a == b
  {
    JoinedCut(a);
    JoinedCut(b);
  }
}
