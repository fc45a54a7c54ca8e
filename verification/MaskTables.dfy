/** What is masked and how, written out: which findings, with which masks, and what is looked for again. */
module MaskTables {
  import opened Wrappers
  import opened Sequences
  import opened Findings
  import opened Masking
  import opened MaskingProofs
  import opened Inspection

  type RiskPolicies = Inspection.Policy

  /** The findings that are masked: not a name, not exempt, not of a category that is left alone, in the text itself,
      and of at least one character. */
  ghost predicate ToBeMasked(f: Finding) {
    && f.kind != Some("PERSON_NAME")
    && (f.maskingRequired.Some? ==> f.maskingRequired.value)
    && f.category != "PROMPT_INJECTION" && f.category != "FILE_SAFETY"
    && f.category != "PUBLIC_IDENTIFIER" && f.category != "RISK_CONTEXT"
    && f.location.source != "file_metadata"
    && f.location.start < f.location.end
  }

  lemma MaskableIff(f: Finding)
    ensures Maskable(f) <==> ToBeMasked(f)
  {
  }

  /** An inspection masks exactly if there is something to be masked, and counts how much. */
  lemma SafeTextIff(policy: RiskPolicies, text: string, found: seq<Finding>, destination: Option<Destination>,
                    detect: Detector)
    ensures var report := Inspect(policy, text, found, destination, detect);
      && (report.safeText.Some? <==> exists f :: f in found && ToBeMasked(f))
      && report.maskedCount == MaskedOf(found)
  {
    hide MaskedText, Residue, Maskable, ToBeMasked;
    forall f { MaskableIff(f); }
    HeadIsMember(MaskableOf(found));
    MaskedAreCounted(found);
  }

  ghost function MaskedOf(fs: seq<Finding>): nat {
    if fs == [] then 0 else (if ToBeMasked(fs[0]) then 1 else 0) + MaskedOf(fs[1..])
  }

  lemma {:induction false} MaskedAreCounted(fs: seq<Finding>)
    ensures |MaskableOf(fs)| == MaskedOf(fs)
  {
    hide Maskable, ToBeMasked;
    if fs != [] {
      MaskableIff(fs[0]);
      MaskedAreCounted(fs[1..]);
    }
  }

  /** What is found in the masked text counts, unless masks of its type look like it. */
  lemma ResidueIff(text: string, found: seq<Finding>, detect: Detector, f: Finding)
    ensures f in Residue(text, found, detect) <==>
      && f in detect(MaskedText(text, found))
      && f.kind != Some("EMAIL") && f.kind != Some("PHONE") && f.kind != Some("KR_RRN")
      && f.kind != Some("CREDIT_CARD") && f.kind != Some("IP_ADDRESS")
  {
    hide MaskedText;
  }

  // ---------- Masks ----------

  ghost predicate Holds(s: string, w: string) {
    exists a, b :: s == a + w + b
  }

  lemma ContainsIsHolds(s: string, w: string)
    ensures Contains(s, w) <==> Holds(s, w)
  {
    if Contains(s, w) {
      var i :| 0 <= i <= |s| && w <= s[i..];
      assert s == s[..i] + w + s[i + |w|..];
    }
    if Holds(s, w) {
      var a, b :| s == a + w + b;
      assert s[|a|..] == w + b;
    }
  }

  /** A key, a token or a password: three characters and a fixed tail. */
  lemma SecretMask(kind: string, v: string)
    requires kind != "EMAIL" && kind != "KR_RRN"
    requires Holds(kind, "KEY") || Holds(kind, "TOKEN") || kind == "PASSWORD_SECRET"
    ensures MaskValue(kind, v) == v[..if |v| < 3 then |v| else 3] + "-************"
  {
    hide Holds, Contains;
    ContainsIsHolds(kind, "KEY");
    ContainsIsHolds(kind, "TOKEN");
  }

  /** An address: its first character, stars for the rest of what stands before the `@` but three at least, and its
      domain as it is. */
  lemma EmailMask(local: string, domain: string)
    requires '@' !in local && '@' !in domain
    ensures var mask := MaskValue("EMAIL", local + "@" + domain);
      && |mask| == 1 + (if |local| < 4 then 3 else |local| - 1) + 1 + |domain|
      && mask[0] == (if local == "" then '*' else local[0])
      && (forall i :: 1 <= i < |mask| - |domain| - 1 ==> mask[i] == '*')
      && mask[|mask| - |domain| - 1] == '@' && mask[|mask| - |domain|..] == domain
  {
    var v := local + "@" + domain;
    LocalPart(local, "@" + domain);
    LocalPart(domain, "");
    assert v == local + ("@" + domain) && v[|local| + 1..] == domain && domain + "" == domain;
    hide BeforeAt;
  }

  lemma {:induction false} LocalPart(front: string, back: string)
    requires '@' !in front && (back == "" || back[0] == '@')
    ensures BeforeAt(front + back) == front
  {
    if front == "" {
      assert front + back == back;
    } else {
      assert (front + back)[1..] == front[1..] + back;
      LocalPart(front[1..], back);
    }
  }

  /** A resident number is masked whole, and so is every other short value; of a longer one two characters at each end
      are shown, with a star for each of the others but twelve at most. */
  lemma OtherMasks(kind: string, v: string)
    requires kind != "EMAIL" && kind != "PASSWORD_SECRET" && !Holds(kind, "KEY") && !Holds(kind, "TOKEN")
    ensures var mask := MaskValue(kind, v);
      && (kind == "KR_RRN" ==> mask == "******-*******")
      && (kind != "KR_RRN" && |v| <= 4 ==> mask == "****")
      && (kind != "KR_RRN" && |v| > 4 ==>
            && |mask| == 4 + (if |v| < 16 then |v| - 4 else 12)
            && mask[..2] == v[..2] && mask[|mask| - 2..] == v[|v| - 2..]
            && forall i :: 2 <= i < |mask| - 2 ==> mask[i] == '*')
  {
    hide Holds, Contains;
    ContainsIsHolds(kind, "KEY");
    ContainsIsHolds(kind, "TOKEN");
    if kind != "KR_RRN" && |v| > 4 {
      OtherMask(kind, v);
      hide MaskValue;
    }
  }

  // ---------- The audit trail ----------

  ghost function Names(events: seq<AuditEvent>): seq<string> {
    seq(|events|, i requires 0 <= i < |events| => events[i].event)
  }

  /** The events of an inspection, in order; the last one says what was decided. */
  lemma TrailTells(policy: RiskPolicies, text: string, found: seq<Finding>, destination: Option<Destination>,
                   detect: Detector)
    ensures var report := Inspect(policy, text, found, destination, detect);
      var d := report.verdict.decision;
      var last := if d == ALLOW then "input_allowed" else if d == BLOCK then "input_blocked"
        else if d == REVIEW then "input_review_required" else "masking_applied";
      Names(Trail(found, report))
      == ["input_received", "prompt_inspected"] + (if report.safeText.Some? then ["masking_applied"] else [])
         + ["policy_evaluated", last]
  {
    hide Inspect, Dedup, Labels, Kinds, MaskableOf;
    var report := Inspect(policy, text, found, destination, detect);
    var masked := report.safeText.Some?;
    var opening, closing := Opening(found, masked), Closing(report.findings, report.verdict.decision, masked);
    assert |opening| == (if masked then 3 else 2) && |closing| == 2;
    assert Trail(found, report) == opening + closing;
    assert opening[0].event == "input_received" && opening[1].event == "prompt_inspected";
    assert masked ==> opening[2].event == "masking_applied";
    assert closing[0].event == "policy_evaluated";
  }
}
