/**
 The primitives the account service consumes: password hashing and the
 validity rules on emails, passwords and nicknames.

 The real hashing library and the schema validators are not part of this
 model. `Hash` stands for them by an injective digest, so that the one
 thing the service relies on holds: a password verifies against the digest
 of exactly itself. The validity predicates are stand-ins that reject the
 malformed inputs the service's tests use.
 */
module Credentials {

  /** An opaque password digest; the service only ever asks `Verify` about it. */
  datatype Digest = Digest(material: string)

  function Hash(password: string): (d: Digest)
  {
    Digest(password)
  }

  predicate Verify(password: string, d: Digest)
  {
    Hash(password) == d
  }

  /** The one property of the credential primitive the service depends on. */
  lemma VerifyHash(p: string, q: string)
    ensures Verify(p, Hash(q)) <==> p == q
  {
  }

  /** Stand-in email rule: exactly one '@', with text on both sides of it. */
  predicate ValidEmail(e: string)
  {
    exists i :: 0 < i < |e| - 1 && e[i] == '@' && '@' !in e[..i] && '@' !in e[i + 1..]
  }

  /** Stand-in password-strength rule: at least eight characters. */
  predicate StrongPassword(p: string)
  {
    |p| >= 8
  }

  predicate NicknameChar(c: char)
  {
    'a' <= c <= 'z' || 'A' <= c <= 'Z' || '0' <= c <= '9' || c == '_' || c == '-'
  }

  /** Nicknames: non-empty, letters, digits, '_' and '-' only. */
  predicate ValidNickname(n: string)
  {
    |n| > 0 && forall i :: 0 <= i < |n| ==> NicknameChar(n[i])
  }

  /** The malformed inputs of the service's tests are rejected. */
  lemma TestWitnessesRejected()
    ensures !ValidEmail("invalidemail") && !ValidEmail("not-an-email")
    ensures !ValidEmail("registerinvalidemail")
    ensures !StrongPassword("short") && !StrongPassword("pw")
    ensures !ValidNickname("") && !ValidNickname("bad nickname!")
  {
    assert !NicknameChar("bad nickname!"[3]);
    NoAtNoEmail("invalidemail");
    NoAtNoEmail("not-an-email");
    NoAtNoEmail("registerinvalidemail");
  }

  lemma NoAtNoEmail(e: string)
    requires '@' !in e
    ensures !ValidEmail(e)
  {
  }

  /**
   Every address the tests build as `<local>@example.com`, including those
   whose local part embeds a generated uuid, is accepted.
   */
  lemma ExampleComEmail(local: string)
    requires |local| > 0 && '@' !in local
    ensures ValidEmail(local + "@example.com")
  {
    var e := local + "@example.com";
    var i := |local|;
    assert e[..i] == local;
    assert e[i + 1..] == "example.com";
  }

  /** An address whose only '@' sits strictly inside it is accepted. */
  lemma SingleAt(e: string, i: nat)
    requires 0 < i < |e| - 1 && e[i] == '@'
    requires forall j :: 0 <= j < |e| && j != i ==> e[j] != '@'
    ensures ValidEmail(e)
  {
    assert '@' !in e[..i] && '@' !in e[i + 1..];
  }

  /** The fixed well-formed emails of the service's tests are accepted. */
  lemma TestEmailsAccepted()
    ensures ValidEmail("valid_user@example.com")
    ensures ValidEmail("updated_email@example.com")
    ensures ValidEmail("register_valid_user@example.com")
  {
    SingleAt("valid_user@example.com", 10);
    SingleAt("updated_email@example.com", 13);
    SingleAt("register_valid_user@example.com", 19);
  }

  /** The fixed well-formed inputs of the service's tests are accepted. */
  lemma TestWitnessesAccepted()
    ensures ValidEmail("valid_user@example.com")
    ensures ValidEmail("updated_email@example.com")
    ensures ValidEmail("register_valid_user@example.com")
    ensures StrongPassword("ValidPassword123!") && StrongPassword("StrongPassw0rd!")
    ensures StrongPassword("RegisterValid123!") && StrongPassword("MySuperPassword$1234")
    ensures StrongPassword("NewPassword123!") && StrongPassword("NewPassw0rd!")
  {
    TestEmailsAccepted();
  }
}
