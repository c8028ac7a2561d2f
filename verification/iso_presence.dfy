/** Checking whether a storage already holds an ISO image of a given name.

    The content listing is scanned for a record whose string `volid` ends with
    the file name (volume identifiers look like `storage:iso/file.iso`) or
    whose string `name` equals it. Finding none is an ordinary `false`, not an
    error.
 */
module IsoPresence {
  import opened Json
  import opened Client

  /** `s` ends with `suffix`: some string followed by the suffix spells `s`. */
  ghost predicate EndsWith(s: string, suffix: string) {
    exists p: string :: p + suffix == s
  }

  /** The length-and-tail comparison by which a suffix test is computed
      agrees with the definition of "ends with". */
  lemma TailTestIsEndsWith(s: string, suffix: string)
    ensures (|suffix| <= |s| && s[|s| - |suffix|..] == suffix) <==> EndsWith(s, suffix)
  {
    if |suffix| <= |s| && s[|s| - |suffix|..] == suffix {
      var p := s[..|s| - |suffix|];
      assert p + suffix == s;
    }
    if EndsWith(s, suffix) {
      var p: string :| p + suffix == s;
      assert s[|s| - |suffix|..] == (p + suffix)[|p|..];
    }
  }

  /** The suffix test on strings: long enough, and the tail of that length is
      the suffix. Strings here are sequences of characters; on valid UTF-8
      text this agrees with a test on the encoded bytes. */
  function HasSuffix(s: string, suffix: string): (b: bool)
    ensures b <==> EndsWith(s, suffix)
  {
    TailTestIsEndsWith(s, suffix);
    |suffix| <= |s| && s[|s| - |suffix|..] == suffix
  }

  /** The `volid` test as written, suffix or exact equality. It holds exactly
      when the record has a string `volid` ending with the ISO name. */
  function VolidMatches(item: Record, isoName: string): (hit: bool)
    ensures hit <==>
      "volid" in item && item["volid"].JString? && EndsWith(item["volid"].str, isoName)
  {
    match StringAt(item, "volid")
    case Some(v) =>
      ExactVolidIsSuffix(v, isoName);
      HasSuffix(v, isoName) || v == isoName
    case None => false
  }

  /** The `name` test: the record has a `name` that is the ISO name as a
      string. */
  function NameMatches(item: Record, isoName: string): (hit: bool)
    ensures hit <==> "name" in item && item["name"] == JString(isoName)
  {
    StringAt(item, "name") == Some(isoName)
  }

  /** One content record names the ISO. The `name` test runs even when the
      record has a `volid` that does not match. */
  function HoldsIso(item: Record, isoName: string): (hit: bool)
    ensures hit <==>
      || ("volid" in item && item["volid"].JString? && EndsWith(item["volid"].str, isoName))
      || ("name" in item && item["name"] == JString(isoName))
  {
    VolidMatches(item, isoName) || NameMatches(item, isoName)
  }

  /** Scan of the content listing, stopping at the first record that holds
      the ISO. */
  function ContainsIso(items: seq<Record>, isoName: string): (found: bool)
    ensures found <==> exists i :: 0 <= i < |items| && HoldsIso(items[i], isoName)
  {
    if |items| == 0 then false
    else if HoldsIso(items[0], isoName) then true
    else ContainsIso(items[1..], isoName)
  }

  /** The whole operation: list the storage's content through the client and
      scan it. Only transport and decode failures are errors. */
  function StorageHasIso(get: Path -> Reply<seq<Record>>, node: string, storage: string, isoName: string)
    : (r: Result<bool>)
    ensures var reply := get(StorageContent(node, storage));
      && (reply.TransportFailed? ==> r == Err(Transport(reply.cause)))
      && (reply.Undecodable? ==> r == Err(Malformed(StorageContentList, reply.cause)))
      && (reply.Decoded? ==>
            && r.Ok?
            && (r.value <==> exists i :: 0 <= i < |reply.value| && HoldsIso(reply.value[i], isoName)))
  {
    match get(StorageContent(node, storage))
    case TransportFailed(cause) => Err(Transport(cause))
    case Undecodable(cause) => Err(Malformed(StorageContentList, cause))
    case Decoded(items) => Ok(ContainsIso(items, isoName))
  }

  /** The equality disjunct adds nothing: an exact `volid` is a suffix of
      itself, so the `volid` test is the suffix test alone. */
  lemma ExactVolidIsSuffix(v: string, isoName: string)
    ensures (HasSuffix(v, isoName) || v == isoName) <==> HasSuffix(v, isoName)
  {
  }

  /** Any string followed by the ISO name is a matching `volid`. */
  lemma PrefixedVolidMatches(item: Record, prefix: string, isoName: string)
    requires StringAt(item, "volid") == Some(prefix + isoName)
    ensures HoldsIso(item, isoName)
  {
  }

  /** A volume identifier composed as `<storage>:iso/<file>` is recognised. */
  lemma ComposedVolidMatches(item: Record, storage: string, isoName: string)
    requires StringAt(item, "volid") == Some(storage + ":iso/" + isoName)
    ensures HoldsIso(item, isoName)
  {
    PrefixedVolidMatches(item, storage + ":iso/", isoName);
  }

  /** With an empty ISO name every record that has a string `volid` matches,
      whatever that `volid` is. */
  lemma EmptyNameMatchesAnyVolid(items: seq<Record>, i: int)
    requires 0 <= i < |items| && StringAt(items[i], "volid").Some?
    ensures ContainsIso(items, "")
  {
  }

  /** The suffix rule is tolerant: a file name that is a proper suffix of a
      stored file name is reported present. */
  lemma SuffixFalsePositive(item: Record)
    requires item == map["volid" := JString("local:iso/centos.iso")]
    ensures HoldsIso(item, "os.iso")
  {
    assert "local:iso/cent" + "os.iso" == "local:iso/centos.iso";
    PrefixedVolidMatches(item, "local:iso/cent", "os.iso");
  }
}
