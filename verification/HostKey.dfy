/** The host key and its canonical wire form. */
module HostKeys {
  import opened Text

  datatype HostKey = Local | Remote(target: string) {
    /** What the schema admits: a remote names a non-empty target. */
    predicate Valid() {
      Remote? ==> target != ""
    }
  }

  const WIRE_PREFIX := "remote:"

  function EncodeHostKey(k: HostKey): string {
    if k.Local? then "local" else WIRE_PREFIX + k.target
  }

  /** `None` where decodeHostKey throws. */
  function DecodeHostKey(s: string): (k: Option<HostKey>)
    ensures k.Some? ==> k.value.Valid() && EncodeHostKey(k.value) == s
  {
    if s == "local" then Some(Local)
    else if StartsWith(s, WIRE_PREFIX) && |s| > |WIRE_PREFIX| then
      assert s == WIRE_PREFIX + s[|WIRE_PREFIX|..];
      Some(Remote(s[|WIRE_PREFIX|..]))
    else None
  }

  predicate IsEncodedHostKey(s: string) {
    DecodeHostKey(s).Some?
  }

  /** decodeHostKey, for a caller that has checked its argument. */
  function HostOf(s: string): (k: HostKey)
    requires IsEncodedHostKey(s)
    ensures k.Valid() && EncodeHostKey(k) == s
  {
    DecodeHostKey(s).value
  }

  function HostKeysEqual(a: HostKey, b: HostKey): bool {
    EncodeHostKey(a) == EncodeHostKey(b)
  }

  lemma WireFormStart(target: string)
    ensures StartsWith(WIRE_PREFIX + target, WIRE_PREFIX)
    ensures (WIRE_PREFIX + target)[|WIRE_PREFIX|..] == target
    ensures WIRE_PREFIX + target != "local"
  {
    assert (WIRE_PREFIX + target)[0] == 'r';
  }

  /** A key survives its wire form exactly when the schema admits it: an empty target is refused. */
  lemma DecodeEncoded(k: HostKey)
    ensures DecodeHostKey(EncodeHostKey(k)) == (if k.Valid() then Some(k) else None)
  {
    if k.Remote? {
      WireFormStart(k.target);
    }
  }

  /** The canonical strings are exactly the wire forms of admissible keys. */
  lemma EncodedHostKeys(s: string)
    ensures IsEncodedHostKey(s) <==> exists k: HostKey :: k.Valid() && s == EncodeHostKey(k)
  {
    forall k: HostKey | k.Valid() && s == EncodeHostKey(k) ensures IsEncodedHostKey(s) {
      DecodeEncoded(k);
    }
  }

  /** Comparing wire forms is comparing keys, even for a key the schema refuses. */
  lemma EqualKeysAreEqual(a: HostKey, b: HostKey)
    ensures HostKeysEqual(a, b) <==> a == b
  {
    if a.Remote? { WireFormStart(a.target); }
    if b.Remote? { WireFormStart(b.target); }
  }

  const LOOPBACK_SPELLINGS: set<string> := {"localhost", "127.0.0.1", "::1"}

  /** The human-input codec: `None` where it throws. */
  function ParseHostInput(s: string): Option<HostKey> {
    if s == "local" || s in LOOPBACK_SPELLINGS then Some(Local)
    else if s == "" then None
    else Some(Remote(s))
  }

  /** Whatever a person types names a key the wire codec carries back, and only the four local
      spellings name this machine: a typed `remote:` prefix stays part of the target. */
  lemma HostInputRoundTrips(s: string)
    ensures ParseHostInput(s).None? <==> s == ""
    ensures s != "" ==> DecodeHostKey(EncodeHostKey(ParseHostInput(s).value)) == ParseHostInput(s)
    ensures s != "" && ParseHostInput(s).value.Remote? ==> EncodeHostKey(ParseHostInput(s).value) == WIRE_PREFIX + s
    ensures ParseHostInput(s) == Some(Local) <==> s in {"local", "localhost", "127.0.0.1", "::1"}
  {
    if s != "" {
      DecodeEncoded(ParseHostInput(s).value);
    }
  }

  /** The wire form, letter by letter, and what is read back from it. */
  lemma WireFormSpelled(target: string)
    ensures EncodeHostKey(Local) == "local" && EncodeHostKey(Remote(target)) == "remote:" + target
    ensures DecodeHostKey("local") == Some(Local)
    ensures DecodeHostKey("remote:" + target) == if target == "" then None else Some(Remote(target))
  {
    DecodeEncoded(Local);
    DecodeEncoded(Remote(target));
  }
}
