/** The immutable `Responsibility` value: a user and the reason text, with Java equality and hashing. */
module Responsibilities {
  import opened Common
  import opened Strings

  datatype Responsibility = Responsibility(user: User, description: string)

  /** What `equals` may be handed: a Responsibility or any other object. */
  datatype JavaObject = AResponsibility(value: Responsibility) | OtherObject

  /** `equals`: compares the users' usernames and the descriptions, never the user objects themselves. */
  predicate Equals(r: Responsibility, another: JavaObject)
  {
    match another
    case OtherObject => false
    case AResponsibility(s) => r.user.username == s.user.username && r.description == s.description
  }

  lemma EqualsIsAnEquivalence(r: Responsibility, s: Responsibility, t: Responsibility)
    ensures Equals(r, AResponsibility(r))
    ensures Equals(r, AResponsibility(s)) ==> Equals(s, AResponsibility(r))
    ensures Equals(r, AResponsibility(s)) && Equals(s, AResponsibility(t)) ==> Equals(r, AResponsibility(t))
    ensures !Equals(r, OtherObject)
  {
  }

  /** Two users with different identities but the same username give equal responsibilities. */
  lemma EqualsIgnoresUserIdentity(u: User, v: User, d: string)
    requires u.username == v.username
    ensures Equals(Responsibility(u, d), AResponsibility(Responsibility(v, d)))
  {
  }

  const Int32Modulus: int := 0x1_0000_0000

  predicate IsInt32(x: int)
  {
    -0x8000_0000 <= x < 0x8000_0000
  }

  /** Two's-complement truncation of `x` to a Java `int`. */
  function ToInt32(x: int): (r: int)
    ensures IsInt32(r)
    ensures (r - x) % Int32Modulus == 0
  {
    (x + 0x8000_0000) % Int32Modulus - 0x8000_0000
  }

  /** `String.hashCode`: h = 31 * h + c over the characters, with `int` overflow. */
  function StringHash(s: string): (h: int)
    ensures IsInt32(h)
  {
    if |s| == 0 then 0 else ToInt32(31 * StringHash(s[..|s| - 1]) + s[|s| - 1] as int)
  }

  /** `Arrays.hashCode(new String[]{username, description})`. */
  function HashCode(r: Responsibility): (h: int)
    ensures IsInt32(h)
  {
    ToInt32(31 * ToInt32(31 * 1 + StringHash(r.user.username)) + StringHash(r.description))
  }

  lemma EqualImpliesEqualHashCodes(r: Responsibility, s: Responsibility)
    requires Equals(r, AResponsibility(s))
    ensures HashCode(r) == HashCode(s)
  {
  }

  /** `getPresentableDescription`: the first "you were" becomes "<username> was". */
  function PresentableDescription(r: Responsibility): string
  {
    ReplaceFirst(r.description, YouWere, r.user.username + " was")
  }

  lemma PresentableWithoutPhraseIsUnchanged(r: Responsibility)
    requires !Contains(r.description, YouWere)
    ensures PresentableDescription(r) == r.description
  {
  }

  /**
   * For a sole-committer reason, the presentable text names the user in place of "you were"
   * (for any reason prefix that does not itself contain "you were", so the first occurrence is
   * the message's own).
   */
  lemma {:induction false} PresentableSoleCommitter(u: User, prefix: string, name: string, number: string)
    requires !Contains(prefix, YouWere)
    ensures var rest := " responsible the only committer to the build: " + name + " # " + number;
      PresentableDescription(Responsibility(u, SoleCommitter(name, number).Text(prefix)))
      == prefix + " " + u.username + " was" + rest
  {
    var rest := " responsible the only committer to the build: " + name + " # " + number;
    assert SoleCommitter(name, number).Text(prefix) == prefix + " " + YouWere + rest;
    PresentableAfterPrefix(u, prefix, rest);
  }

  /** The first "you were" after a prefix free of it is the one replaced. */
  lemma PresentableAfterPrefix(u: User, prefix: string, rest: string)
    requires !Contains(prefix, YouWere)
    ensures PresentableDescription(Responsibility(u, prefix + " " + YouWere + rest))
      == prefix + " " + u.username + " was" + rest
  {
    var head := prefix + " ";
    var rep := u.username + " was";
    NotContainsSnoc(prefix, ' ', YouWere);
    YouWereStartsOnce();
    ReplaceFirstAfterHead(head, YouWere, rest, rep);
    assert head + rep + rest == prefix + " " + u.username + " was" + rest;
  }

  /** No later letter of "you were" is its first one, so no occurrence can overlap another. */
  lemma YouWereStartsOnce()
    ensures forall k :: 0 < k < |YouWere| ==> YouWere[k] != YouWere[0]
  {
  }
}
