/** The audit log: what is removed from a payload before it is hashed, and hashed records. */
module AuditLog {
  import opened Wrappers
  import opened PyValues

  const SENSITIVE_KEYS: set<string> := {"signer_seed", "seed", "private_key", "secret", "raw_seed"}

  /** `str.lower` as far as membership in the sensitive keys can tell: the Kelvin sign is the only
      character outside ASCII with an ASCII lower case on its own. */
  function LowerChar(c: char): char {
    if 'A' <= c <= 'Z' then c - 'A' + 'a' else if c == '\U{212A}' then 'k' else c
  }

  function Lower(s: string): (r: string) {
    seq(|s|, i requires 0 <= i < |s| => LowerChar(s[i]))
  }

  predicate Sensitive(key: string) {
    Lower(key) in SENSITIVE_KEYS
  }

  /** `sanitize_for_audit`: every entry under a sensitive key is dropped, at every depth. */
  function Sanitize(v: PyValue): PyValue {
    match v
    case PyDict(d) => PyDict(map k | k in d && !Sensitive(k) :: Sanitize(d[k]))
    case PyList(items) => PyList(seq(|items|, i requires 0 <= i < |items| => Sanitize(items[i])))
    case _ => v
  }

  /** The entries under these keys, sanitized. */
  ghost function SanitizedPart(d: Dict, keys: set<string>): Dict {
    map k | k in d.Keys && k in keys && !Sensitive(k) :: Sanitize(d[k])
  }

  lemma SanitizedPartGrows(d: Dict, keys: set<string>, key: string)
    requires key in d
    ensures SanitizedPart(d, keys + {key})
      == if Sensitive(key) then SanitizedPart(d, keys) else SanitizedPart(d, keys)[key := Sanitize(d[key])]
  {
    hide Sensitive, Sanitize;
  }

  lemma SanitizedParts(d: Dict)
    ensures SanitizedPart(d, {}) == map[]
    ensures PyDict(SanitizedPart(d, d.Keys)) == Sanitize(PyDict(d))
  {
    hide Sensitive;
  }

  method SanitizeForAudit(payload: PyValue) returns (r: PyValue)
    ensures r == Sanitize(payload)
    decreases payload
  {
    hide Sensitive, SanitizedPart;
    match payload
    case PyDict(d) =>
      var cleaned: Dict := map[];
      var todo := d.Keys;
      SanitizedParts(d);
      assert d.Keys - todo == {};
      while todo != {}
        invariant todo <= d.Keys && cleaned == SanitizedPart(d, d.Keys - todo)
        decreases |todo|
      {
        var key :| key in todo;
        SanitizedPartGrows(d, d.Keys - todo, key);
        assert d.Keys - (todo - {key}) == d.Keys - todo + {key};
        if !Sensitive(key) {
          var value := SanitizeForAudit(d[key]);
          cleaned := cleaned[key := value];
        }
        todo := todo - {key};
      }
      assert d.Keys - {} == d.Keys;
      r := PyDict(cleaned);
    case PyList(items) =>
      var out: seq<PyValue> := [];
      for i := 0 to |items|
        invariant out == seq(i, j requires 0 <= j < i => Sanitize(items[j]))
      {
        var item := SanitizeForAudit(items[i]);
        out := out + [item];
      }
      r := PyList(out);
    case _ =>
      r := payload;
  }

  function RequestHash(payload: PyValue): Digest {
    Sha256Hex(Sanitize(payload))
  }

  // ---------- What sanitizing achieves ----------

  /** The character `c` is the small letter `d` or its capital; the Kelvin sign is a capital `k` too. */
  ghost predicate SpellsLetter(c: char, d: char) {
    c == d || ('a' <= d <= 'z' && c as int == d as int - 32) || (d == 'k' && c == '\U{212A}')
  }

  /** The key is this word in some mixture of small and capital letters. */
  ghost predicate Spells(key: string, word: string) {
    |key| == |word| && forall i :: 0 <= i < |key| ==> SpellsLetter(key[i], word[i])
  }

  ghost predicate SecretKey(key: string) {
    || Spells(key, "signer_seed")
    || Spells(key, "seed")
    || Spells(key, "private_key")
    || Spells(key, "secret")
    || Spells(key, "raw_seed")
  }

  lemma SpelledLetter(c: char, d: char)
    requires 'a' <= d <= 'z' || d == '_'
    ensures LowerChar(c) == d <==> SpellsLetter(c, d)
  {
  }

  lemma SpelledWord(key: string, word: string)
    requires forall i :: 0 <= i < |word| ==> 'a' <= word[i] <= 'z' || word[i] == '_'
    ensures Lower(key) == word <==> Spells(key, word)
  {
    hide LowerChar, SpellsLetter;
    if |key| == |word| {
      forall i | 0 <= i < |key| ensures Lower(key)[i] == word[i] <==> SpellsLetter(key[i], word[i]) {
        SpelledLetter(key[i], word[i]);
      }
    }
  }

  /** The keys whose entries are dropped are the five words in any mixture of small and capital letters. */
  lemma SensitiveIsSecret(key: string)
    ensures Sensitive(key) <==> SecretKey(key)
  {
    hide Spells, Lower;
    SpelledWord(key, "signer_seed");
    SpelledWord(key, "seed");
    SpelledWord(key, "private_key");
    SpelledWord(key, "secret");
    SpelledWord(key, "raw_seed");
  }

  datatype PathStep = Key(key: string) | Index(index: nat)

  /** The value at a path, if there is one. */
  ghost function At(v: PyValue, path: seq<PathStep>): Option<PyValue>
    decreases |path|
  {
    if path == [] then Some(v)
    else
      match path[0]
      case Key(k) => if v.PyDict? && k in v.entries then At(v.entries[k], path[1..]) else None
      case Index(i) => if v.PyList? && i < |v.items| then At(v.items[i], path[1..]) else None
  }

  ghost predicate SensitivePath(path: seq<PathStep>) {
    exists i :: 0 <= i < |path| && path[i].Key? && Sensitive(path[i].key)
  }

  /** There is a secret on the way. */
  ghost predicate SecretPath(path: seq<PathStep>) {
    exists i :: 0 <= i < |path| && path[i].Key? && SecretKey(path[i].key)
  }

  /** Path by path: nothing is left under a sensitive key, and every other path leads to what it led
      to before, sanitized. */
  lemma {:induction false} SanitizedAt(v: PyValue, path: seq<PathStep>)
    ensures At(Sanitize(v), path) ==
      if SensitivePath(path) || At(v, path).None? then None else Some(Sanitize(At(v, path).value))
    decreases |path|
  {
    if path != [] {
      var step, rest := path[0], path[1..];
      assert SensitivePath(path) <==> (step.Key? && Sensitive(step.key)) || SensitivePath(rest) by {
        if SensitivePath(rest) {
          var i :| 0 <= i < |rest| && rest[i].Key? && Sensitive(rest[i].key);
          assert path[i + 1] == rest[i];
        }
        if SensitivePath(path) && !(step.Key? && Sensitive(step.key)) {
          var i :| 0 <= i < |path| && path[i].Key? && Sensitive(path[i].key);
          assert rest[i - 1] == path[i];
        }
      }
      match step
      case Key(k) =>
        if v.PyDict? && k in v.entries && !Sensitive(k) {
          SanitizedAt(v.entries[k], rest);
        }
      case Index(i) =>
        if v.PyList? && i < |v.items| {
          SanitizedAt(v.items[i], rest);
        }
    }
  }

  /** In terms of the five words: a path leads somewhere after sanitizing exactly if it did before and no key on it is
      one of them, in whatever letters; and it leads to the same number, text or truth value. */
  lemma SecretsAreDropped(v: PyValue, path: seq<PathStep>)
    ensures At(Sanitize(v), path).Some? <==> At(v, path).Some? && !SecretPath(path)
    ensures At(Sanitize(v), path).Some? && !At(v, path).value.PyDict? && !At(v, path).value.PyList? ==>
      At(Sanitize(v), path) == At(v, path)
  {
    hide Sensitive, SecretKey, At;
    SanitizedAt(v, path);
    forall i | 0 <= i < |path| && path[i].Key? ensures Sensitive(path[i].key) <==> SecretKey(path[i].key) {
      SensitiveIsSecret(path[i].key);
    }
  }

  /** A value without a sensitive key at any depth. */
  ghost predicate Clean(v: PyValue) {
    match v
    case PyDict(d) => forall k :: k in d ==> !Sensitive(k) && Clean(d[k])
    case PyList(items) => forall i :: 0 <= i < |items| ==> Clean(items[i])
    case _ => true
  }

  lemma {:induction false} SanitizedIsClean(v: PyValue)
    ensures Clean(Sanitize(v))
  {
    match v
    case PyDict(d) =>
      forall k | k in d && !Sensitive(k) ensures Clean(Sanitize(d[k])) {
        SanitizedIsClean(d[k]);
      }
    case PyList(items) =>
      forall i | 0 <= i < |items| ensures Clean(Sanitize(items[i])) {
        SanitizedIsClean(items[i]);
      }
    case _ =>
  }

  /** Exactly the clean values are left alone; with SanitizedIsClean, sanitizing is idempotent. */
  lemma {:induction false} UnchangedIffClean(v: PyValue)
    ensures Sanitize(v) == v <==> Clean(v)
  {
    SanitizedIsClean(v);
    if Clean(v) {
      match v
      case PyDict(d) =>
        forall k | k in d ensures Sanitize(d[k]) == d[k] {
          UnchangedIffClean(d[k]);
        }
        assert (map k | k in d && !Sensitive(k) :: Sanitize(d[k])) == d;
      case PyList(items) =>
        forall i | 0 <= i < |items| ensures Sanitize(items[i]) == items[i] {
          UnchangedIffClean(items[i]);
        }
      case _ =>
    }
  }

  lemma SanitizeIsIdempotent(v: PyValue)
    ensures Sanitize(Sanitize(v)) == Sanitize(v)
  {
    SanitizedIsClean(v);
    UnchangedIffClean(Sanitize(v));
  }

  /** Equal but for what lies under sensitive keys. */
  ghost predicate AgreeOutsideSecrets(v: PyValue, w: PyValue) {
    match v
    case PyDict(d) =>
      && w.PyDict?
      && (forall k :: !Sensitive(k) ==> (k in d <==> k in w.entries))
      && (forall k :: k in d && !Sensitive(k) ==> k in w.entries && AgreeOutsideSecrets(d[k], w.entries[k]))
    case PyList(items) =>
      w.PyList? && |items| == |w.items| && forall i :: 0 <= i < |items| ==> AgreeOutsideSecrets(items[i], w.items[i])
    case _ => v == w
  }

  lemma {:induction false} AgreementSanitizesAlike(v: PyValue, w: PyValue)
    requires AgreeOutsideSecrets(v, w)
    ensures Sanitize(v) == Sanitize(w)
  {
    match v
    case PyDict(d) =>
      var e := w.entries;
      forall k | k in d && !Sensitive(k) ensures Sanitize(d[k]) == Sanitize(e[k]) {
        AgreementSanitizesAlike(d[k], e[k]);
      }
      assert Sanitize(v).entries == Sanitize(w).entries;
    case PyList(items) =>
      forall i | 0 <= i < |items| ensures Sanitize(items[i]) == Sanitize(w.items[i]) {
        AgreementSanitizesAlike(items[i], w.items[i]);
      }
      assert Sanitize(v).items == Sanitize(w).items;
    case _ =>
  }

  lemma {:induction false} SanitizedAlikeAgrees(v: PyValue, w: PyValue)
    requires Sanitize(v) == Sanitize(w)
    ensures AgreeOutsideSecrets(v, w)
  {
    match v
    case PyDict(d) =>
      var e := w.entries;
      var dd, ee := Sanitize(v).entries, Sanitize(w).entries;
      forall k | !Sensitive(k) ensures k in d <==> k in e {
        assert k in dd <==> k in ee;
      }
      forall k | k in d && !Sensitive(k) ensures k in e && AgreeOutsideSecrets(d[k], e[k]) {
        assert k in dd && dd[k] == ee[k];
        SanitizedAlikeAgrees(d[k], e[k]);
      }
    case PyList(items) =>
      assert |Sanitize(v).items| == |Sanitize(w).items|;
      forall i | 0 <= i < |items| ensures AgreeOutsideSecrets(items[i], w.items[i]) {
        assert Sanitize(v).items[i] == Sanitize(w).items[i];
        SanitizedAlikeAgrees(items[i], w.items[i]);
      }
    case _ =>
  }

  /** A request hash tells two payloads apart exactly if they differ outside sensitive keys. */
  lemma RequestHashIgnoresExactlySecrets(v: PyValue, w: PyValue)
    ensures RequestHash(v) == RequestHash(w) <==> AgreeOutsideSecrets(v, w)
  {
    if AgreeOutsideSecrets(v, w) {
      AgreementSanitizesAlike(v, w);
    }
    if Sanitize(v) == Sanitize(w) {
      SanitizedAlikeAgrees(v, w);
    }
  }

  // ---------- Hashed records ----------

  datatype Status =
    | BLOCKED
    | APPROVED
    | CONDITIONAL_APPROVAL
    | REQUIRE_APPROVAL
    | EXPIRED
    | APPROVED_AFTER_HUMAN_APPROVAL
    | REJECTED_BY_HUMAN

  function StatusText(s: Status): string {
    match s
    case BLOCKED => "BLOCKED"
    case APPROVED => "APPROVED"
    case CONDITIONAL_APPROVAL => "CONDITIONAL_APPROVAL"
    case REQUIRE_APPROVAL => "REQUIRE_APPROVAL"
    case EXPIRED => "EXPIRED"
    case APPROVED_AFTER_HUMAN_APPROVAL => "APPROVED_AFTER_HUMAN_APPROVAL"
    case REJECTED_BY_HUMAN => "REJECTED_BY_HUMAN"
  }

  function OptionalText(t: Option<string>): PyValue {
    if t.Some? then PyStr(t.value) else PyNone
  }

  /** `timestamp` in whole seconds, which is all that is ever read of it. */
  datatype AuditRecord = AuditRecord(
    status: Status,
    agentDid: string,
    request: Dict,
    reason: Option<string>,
    tokenId: Option<string>,
    timestamp: int,
    recordHash: Option<Digest>)

  function RecordHash(r: AuditRecord): Digest {
    Sha256Hex(PyDict(map[
      "status" := PyStr(StatusText(r.status)),
      "agent_did" := PyStr(r.agentDid),
      "request" := Sanitize(PyDict(r.request)),
      "reason" := OptionalText(r.reason),
      "token_id" := OptionalText(r.tokenId),
      "timestamp" := PyNum(r.timestamp as real)]))
  }

  /** What is hashed of a record, and for which other records the hash is the same: everything but what lies under
      secret keys of the request, and but for the stored hash. */
  ghost predicate SameContents(r: AuditRecord, s: AuditRecord) {
    && r.status == s.status
    && r.agentDid == s.agentDid
    && r.reason == s.reason
    && r.tokenId == s.tokenId
    && r.timestamp == s.timestamp
    && AgreeOutsideSecrets(PyDict(r.request), PyDict(s.request))
  }

  /** The six entries that are hashed, each to be told from the value it was made of. */
  ghost predicate SameEntries(r: AuditRecord, s: AuditRecord) {
    && StatusText(r.status) == StatusText(s.status)
    && r.agentDid == s.agentDid
    && OptionalText(r.reason) == OptionalText(s.reason)
    && OptionalText(r.tokenId) == OptionalText(s.tokenId)
    && r.timestamp == s.timestamp
    && Sanitize(PyDict(r.request)) == Sanitize(PyDict(s.request))
  }

  lemma StatusTextsDiffer(a: Status, b: Status)
    ensures StatusText(a) == StatusText(b) <==> a == b
  {
  }

  lemma HashTellsEntries(r: AuditRecord, s: AuditRecord)
    ensures RecordHash(r) == RecordHash(s) <==> SameEntries(r, s)
  {
    hide StatusText, OptionalText, Sanitize;
    var a, b := RecordHash(r).payload.entries, RecordHash(s).payload.entries;
    assert a["status"] == PyStr(StatusText(r.status)) && b["status"] == PyStr(StatusText(s.status));
    assert a["agent_did"] == PyStr(r.agentDid) && b["agent_did"] == PyStr(s.agentDid);
    assert a["request"] == Sanitize(PyDict(r.request)) && b["request"] == Sanitize(PyDict(s.request));
    assert a["reason"] == OptionalText(r.reason) && b["reason"] == OptionalText(s.reason);
    assert a["token_id"] == OptionalText(r.tokenId) && b["token_id"] == OptionalText(s.tokenId);
    assert a["timestamp"] == PyNum(r.timestamp as real) && b["timestamp"] == PyNum(s.timestamp as real);
  }

  /** Two records have the same hash exactly if they have the same contents. */
  lemma RecordHashTellsContents(r: AuditRecord, s: AuditRecord)
    ensures RecordHash(r) == RecordHash(s) <==> SameContents(r, s)
  {
    hide RecordHash, Sanitize, AgreeOutsideSecrets, StatusText;
    HashTellsEntries(r, s);
    StatusTextsDiffer(r.status, s.status);
    RequestHashIgnoresExactlySecrets(PyDict(r.request), PyDict(s.request));
  }

  /** A record as it is stored: carrying the hash of its own contents. */
  function Sealed(r: AuditRecord): AuditRecord {
    r.(recordHash := Some(RecordHash(r)))
  }

  /** The stored hash is not part of what is hashed. */
  lemma ResealingForgetsTheOldHash(r: AuditRecord, request: Dict)
    ensures Sealed(Sealed(r).(request := request)) == Sealed(r.(request := request))
    ensures Sealed(r).request == r.request
  {
  }

  class MerkleAuditLog {
    var records: seq<AuditRecord>

    constructor ()
      ensures records == []
    {
      records := [];
    }

    method Append(r: AuditRecord)
      modifies this
      ensures records == old(records) + [Sealed(r)]
    {
      records := records + [r.(recordHash := Some(RecordHash(r)))];
    }

    /** A later change to the newest record: its request is patched in place and it is hashed again. */
    method PatchLast(key: string, value: PyValue)
      requires records != []
      modifies this
      ensures records == Patched(old(records), key, value)
    {
      var last := records[|records| - 1];
      last := last.(request := last.request[key := value]);
      last := last.(recordHash := Some(RecordHash(last)));
      records := records[..|records| - 1] + [last];
    }
  }

  function Patched(records: seq<AuditRecord>, key: string, value: PyValue): seq<AuditRecord>
    requires records != []
  {
    var last := records[|records| - 1];
    records[..|records| - 1] + [Sealed(last.(request := last.request[key := value]))]
  }

  lemma PatchedSnoc(front: seq<AuditRecord>, last: AuditRecord, key: string, value: PyValue)
    ensures Patched(front + [last], key, value) == front + [Sealed(last.(request := last.request[key := value]))]
  {
    assert (front + [last])[..|front + [last]| - 1] == front;
  }
}
