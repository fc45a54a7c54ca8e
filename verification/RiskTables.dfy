/** The composite and destination risks, written out over the types and categories of the findings. */
module RiskTables {
  import opened Wrappers
  import opened Sequences
  import opened Findings
  import opened RiskPolicy

  /** A finding of this type is there. */
  ghost predicate Kind(fs: seq<Finding>, kind: string) {
    exists f :: f in fs && f.kind == Some(kind)
  }

  ghost predicate Category(fs: seq<Finding>, category: string) {
    exists f :: f in fs && f.category == category
  }

  ghost predicate Address(kind: Option<string>) {
    || kind == Some("XRPL_PUBLIC_ADDRESS") || kind == Some("ETHEREUM_PUBLIC_ADDRESS")
    || kind == Some("BITCOIN_PUBLIC_ADDRESS") || kind == Some("XRPL_ADDRESS")
    || kind == Some("ETHEREUM_ADDRESS") || kind == Some("BITCOIN_ADDRESS")
  }

  ghost predicate Personal(kind: Option<string>) {
    || kind == Some("PERSON_NAME") || kind == Some("EMAIL") || kind == Some("PHONE")
    || kind == Some("DATE_OF_BIRTH") || kind == Some("KR_RRN") || kind == Some("DETAILED_ADDRESS")
  }

  ghost function Addresses(fs: seq<Finding>): nat {
    if fs == [] then 0 else (if Address(fs[0].kind) then 1 else 0) + Addresses(fs[1..])
  }

  ghost function Personals(fs: seq<Finding>): nat {
    if fs == [] then 0 else (if Personal(fs[0].kind) then 1 else 0) + Personals(fs[1..])
  }

  lemma {:induction false} AddressesAre(fs: seq<Finding>)
    ensures CountOf(fs, WALLET_TYPES) == Addresses(fs)
    ensures Wallet(fs) <==> Addresses(fs) > 0
  {
    if fs != [] {
      AddressesAre(fs[1..]);
      assert IsOneOf(WALLET_TYPES, fs[0]) <==> Address(fs[0].kind);
      assert OneOf(WALLET_TYPES)(fs[0]) <==> IsOneOf(WALLET_TYPES, fs[0]);
      hide IsOneOf, Address;
      assert forall f :: f in fs <==> f == fs[0] || f in fs[1..];
    }
  }

  lemma {:induction false} PersonalsAre(fs: seq<Finding>)
    ensures CountOf(fs, PERSONAL_TYPES) == Personals(fs)
  {
    if fs != [] {
      PersonalsAre(fs[1..]);
      assert IsOneOf(PERSONAL_TYPES, fs[0]) <==> Personal(fs[0].kind);
      assert OneOf(PERSONAL_TYPES)(fs[0]) <==> IsOneOf(PERSONAL_TYPES, fs[0]);
    }
  }

  lemma AnyIsKind(fs: seq<Finding>, kind: string)
    ensures AnyOf(fs, {kind}) <==> Kind(fs, kind)
  {
  }

  lemma AnyOfTwo(fs: seq<Finding>, a: string, b: string)
    ensures AnyOf(fs, {a, b}) <==> Kind(fs, a) || Kind(fs, b)
  {
  }

  lemma HasTwo(fs: seq<Finding>, a: string, b: string)
    ensures Has(fs, {a, b}) <==> Kind(fs, a) && Kind(fs, b)
  {
    hide AnyOf, Kind;
    AnyIsKind(fs, a);
    AnyIsKind(fs, b);
    assert a in {a, b} && b in {a, b};
  }

  lemma HasThree(fs: seq<Finding>, a: string, b: string, c: string)
    ensures Has(fs, {a, b, c}) <==> Kind(fs, a) && Kind(fs, b) && Kind(fs, c)
  {
    hide AnyOf, Kind;
    AnyIsKind(fs, a);
    AnyIsKind(fs, b);
    AnyIsKind(fs, c);
    assert a in {a, b, c} && b in {a, b, c} && c in {a, b, c};
  }

  lemma HasOne(fs: seq<Finding>, a: string)
    ensures Has(fs, {a}) <==> Kind(fs, a)
  {
    hide AnyOf, Kind;
    AnyIsKind(fs, a);
    assert a in {a};
  }

  // ---------- The thirteen combinations ----------

  /** The combination is of this number. */
  ghost predicate Combines(i: nat, fs: seq<Finding>, c: CompositeRisk) {
    || (i == 0 && Kind(fs, "PERSON_NAME") && Kind(fs, "EMAIL")
        && c == CompositeRisk("CR-IDENTITY-001", ["PERSON_NAME", "EMAIL"], MEDIUM, MASK))
    || (i == 1 && Kind(fs, "PERSON_NAME") && Kind(fs, "PHONE")
        && c == CompositeRisk("CR-IDENTITY-002", ["PERSON_NAME", "PHONE"], MEDIUM, MASK))
    || (i == 2 && Kind(fs, "PERSON_NAME") && Kind(fs, "DATE_OF_BIRTH") && Kind(fs, "PHONE")
        && c == CompositeRisk("CR-IDENTITY-003", ["PERSON_NAME", "DATE_OF_BIRTH", "PHONE"], HIGH, REVIEW))
    || (i == 3 && Kind(fs, "PERSON_NAME") && Kind(fs, "KR_RRN")
        && c == CompositeRisk("CR-IDENTITY-004", ["PERSON_NAME", "KR_RRN"], CRITICAL, BLOCK))
    || (i == 4 && Kind(fs, "CREDIT_CARD") && (Kind(fs, "CARD_EXPIRY") || Kind(fs, "CARD_CVV"))
        && c == CompositeRisk("CR-CARD-001", ["CREDIT_CARD"], CRITICAL, BLOCK))
    || (i == 5 && Addresses(fs) > 0 && Kind(fs, "PERSON_NAME")
        && c == CompositeRisk("CR-WALLET-001", ["PUBLIC_BLOCKCHAIN_ADDRESS", "PERSON_NAME"], MEDIUM, REVIEW))
    || (i == 6 && Addresses(fs) > 0 && Kind(fs, "CUSTOMER_NUMBER")
        && c == CompositeRisk("CR-WALLET-003", ["PUBLIC_BLOCKCHAIN_ADDRESS", "CUSTOMER_NUMBER"], MEDIUM, REVIEW))
    || (i == 7 && Addresses(fs) > 0 && (Kind(fs, "BLOCKCHAIN_PRIVATE_KEY") || Kind(fs, "XRPL_FAMILY_SEED"))
        && c == CompositeRisk("CR-WALLET-002", ["PUBLIC_BLOCKCHAIN_ADDRESS", "PRIVATE_KEY"], CRITICAL, BLOCK))
    || (i == 8 && Addresses(fs) >= 10
        && c == CompositeRisk("CR-WALLET-BULK-001", ["PUBLIC_BLOCKCHAIN_ADDRESS_LIST"], MEDIUM, REVIEW))
    || (i == 9 && Addresses(fs) > 0 && Kind(fs, "INVESTIGATION_CONTEXT")
        && c == CompositeRisk("CR-WALLET-AML-001", ["PUBLIC_BLOCKCHAIN_ADDRESS", "INVESTIGATION_CONTEXT"],
                              MEDIUM, REVIEW))
    || (i == 10 && Addresses(fs) > 0 && Kind(fs, "ASSET_TRANSFER_INTENT")
        && c == CompositeRisk("CR-WALLET-TRANSFER-001", ["PUBLIC_BLOCKCHAIN_ADDRESS", "ASSET_TRANSFER_INTENT"],
                              MEDIUM, REVIEW))
    || (i == 11 && (Kind(fs, "MNEMONIC_SEED_PHRASE") || Kind(fs, "XRPL_FAMILY_SEED"))
        && c == CompositeRisk("CR-SEED-001", ["SEED_PHRASE"], CRITICAL, BLOCK))
    || (i == 12 && Personals(fs) >= 4
        && c == CompositeRisk("CR-PII-COUNT-001", ["MULTIPLE_PERSONAL_DATA"], HIGH, REVIEW))
  }

  lemma IdentitiesIff(i: nat, fs: seq<Finding>, c: CompositeRisk)
    requires i <= 4
    ensures Combines(i, fs, c) <==> Present(i, fs) && c == Combination(i)
  {
    hide Kind, Has, Addresses, Personals, Wallet, AnyOf;
    HasTwo(fs, "PERSON_NAME", "EMAIL");
    HasTwo(fs, "PERSON_NAME", "PHONE");
    HasThree(fs, "PERSON_NAME", "DATE_OF_BIRTH", "PHONE");
    HasTwo(fs, "PERSON_NAME", "KR_RRN");
    HasTwo(fs, "CREDIT_CARD", "CARD_EXPIRY");
    HasTwo(fs, "CREDIT_CARD", "CARD_CVV");
  }

  lemma WalletsIff(i: nat, fs: seq<Finding>, c: CompositeRisk)
    requires 5 <= i < 13
    ensures Combines(i, fs, c) <==> Present(i, fs) && c == Combination(i)
  {
    hide Kind, Has, Addresses, Personals, Wallet, AnyOf, CountOf;
    AddressesAre(fs);
    PersonalsAre(fs);
    HasOne(fs, "PERSON_NAME");
    AnyIsKind(fs, "CUSTOMER_NUMBER");
    AnyOfTwo(fs, "BLOCKCHAIN_PRIVATE_KEY", "XRPL_FAMILY_SEED");
    AnyIsKind(fs, "INVESTIGATION_CONTEXT");
    AnyIsKind(fs, "ASSET_TRANSFER_INTENT");
    AnyOfTwo(fs, "MNEMONIC_SEED_PHRASE", "XRPL_FAMILY_SEED");
  }

  lemma {:induction false} CombinedUpTo(fs: seq<Finding>, n: nat, c: CompositeRisk)
    requires n <= 13
    ensures c in CompositesUpTo(fs, n) <==> exists i: nat :: i < n && Combines(i, fs, c)
  {
    hide Present, Combination, Combines;
    if n > 0 {
      CombinedUpTo(fs, n - 1, c);
      if n - 1 <= 4 { IdentitiesIff(n - 1, fs, c); } else { WalletsIff(n - 1, fs, c); }
      assert Combines(n - 1, fs, c) ==> exists i: nat :: i < n && Combines(i, fs, c);
    }
  }

  /** What is reported as a composite risk, over the types of the findings alone. */
  lemma CompositeRisksIff(fs: seq<Finding>, c: CompositeRisk)
    ensures c in CompositeRisks(fs) <==> exists i: nat :: i < 13 && Combines(i, fs, c)
  {
    hide Combines;
    CombinedUpTo(fs, 13, c);
  }

  // ---------- The four destination risks ----------

  ghost predicate SecretFound(fs: seq<Finding>) {
    || Category(fs, "CREDENTIAL_SECRET")
    || Kind(fs, "PRIVATE_KEY") || Kind(fs, "XRPL_FAMILY_SEED") || Kind(fs, "MNEMONIC_SEED_PHRASE")
    || Kind(fs, "DATABASE_CONNECTION_STRING")
  }

  ghost predicate PersonFound(fs: seq<Finding>) {
    || Kind(fs, "EMAIL") || Kind(fs, "PHONE") || Kind(fs, "PERSON_NAME") || Kind(fs, "DATE_OF_BIRTH")
    || Kind(fs, "DETAILED_ADDRESS") || Kind(fs, "BUSINESS_REGISTRATION_NUMBER")
  }

  ghost predicate Exposes(i: nat, fs: seq<Finding>, d: Destination, c: CompositeRisk) {
    || (i == 0 && SecretFound(fs)
        && ((d.kind == Unknown && c == CompositeRisk("DR-SECRET-001", ["SECRET", "unknown"], CRITICAL, BLOCK))
            || (d.kind == ExternalApi
                && c == CompositeRisk("DR-SECRET-001", ["SECRET", "external_api"], CRITICAL, BLOCK))
            || (d.kind == UnapprovedExternalLlm
                && c == CompositeRisk("DR-SECRET-001", ["SECRET", "unapproved_external_llm"], CRITICAL, BLOCK))))
    || (i == 1 && Category(fs, "CONFIDENTIAL_DOCUMENT") && d.kind == UnapprovedExternalLlm
        && c == CompositeRisk("DR-CONF-001", ["CONFIDENTIAL_DOCUMENT", "unapproved_external_llm"], CRITICAL, BLOCK))
    || (i == 2 && Category(fs, "CONFIDENTIAL_DOCUMENT") && d.kind == InternalModel && d.approved
        && c == CompositeRisk("DR-CONF-002", ["CONFIDENTIAL_DOCUMENT", "internal_model"], MEDIUM, REVIEW))
    || (i == 3 && PersonFound(fs) && d.kind == ApprovedExternalLlm
        && c == CompositeRisk("DR-PII-001", ["PERSONAL_DATA", "approved_external_llm"], MEDIUM, MASK))
  }

  lemma SecretIff(fs: seq<Finding>)
    ensures SecretPresent(fs) <==> SecretFound(fs)
  {
    var types := {"PRIVATE_KEY", "XRPL_FAMILY_SEED", "MNEMONIC_SEED_PHRASE", "DATABASE_CONNECTION_STRING"};
    assert forall f: Finding :: IsOneOf(types, f) <==>
      || f.kind == Some("PRIVATE_KEY") || f.kind == Some("XRPL_FAMILY_SEED")
      || f.kind == Some("MNEMONIC_SEED_PHRASE") || f.kind == Some("DATABASE_CONNECTION_STRING");
    hide IsOneOf;
  }

  lemma PersonIff(fs: seq<Finding>)
    ensures PersonalPresent(fs) <==> PersonFound(fs)
  {
    var types := {"EMAIL", "PHONE", "PERSON_NAME", "DATE_OF_BIRTH", "DETAILED_ADDRESS", "BUSINESS_REGISTRATION_NUMBER"};
    assert forall f: Finding :: IsOneOf(types, f) <==>
      || f.kind == Some("EMAIL") || f.kind == Some("PHONE") || f.kind == Some("PERSON_NAME")
      || f.kind == Some("DATE_OF_BIRTH") || f.kind == Some("DETAILED_ADDRESS")
      || f.kind == Some("BUSINESS_REGISTRATION_NUMBER");
    hide IsOneOf;
  }

  lemma ExposesIff(i: nat, fs: seq<Finding>, d: Destination, c: CompositeRisk)
    requires i < 4
    ensures Exposes(i, fs, d, c) <==> AtRisk(i, fs, d) && c == DestinationRisk(i, d)
  {
    hide SecretFound, PersonFound, SecretPresent, PersonalPresent, Kind;
    SecretIff(fs);
    PersonIff(fs);
    assert AnyCategory(fs, "CONFIDENTIAL_DOCUMENT") <==> Category(fs, "CONFIDENTIAL_DOCUMENT");
    hide AnyCategory, Category;
  }

  lemma {:induction false} ExposedUpTo(fs: seq<Finding>, d: Destination, n: nat, c: CompositeRisk)
    requires n <= 4
    ensures c in DestinationUpTo(fs, d, n) <==> exists i: nat :: i < n && Exposes(i, fs, d, c)
  {
    hide AtRisk, DestinationRisk, Exposes;
    if n > 0 {
      ExposedUpTo(fs, d, n - 1, c);
      ExposesIff(n - 1, fs, d, c);
      assert Exposes(n - 1, fs, d, c) ==> exists i: nat :: i < n && Exposes(i, fs, d, c);
    }
  }

  /** What is reported as a destination risk, over the types and categories of the findings. */
  lemma DestinationRisksIff(fs: seq<Finding>, destination: Option<Destination>, c: CompositeRisk)
    ensures c in DestinationRisks(fs, destination)
      <==> destination.Some? && exists i: nat :: i < 4 && Exposes(i, fs, destination.value, c)
  {
    hide Exposes;
    if destination.Some? { ExposedUpTo(fs, destination.value, 4, c); }
  }
}
