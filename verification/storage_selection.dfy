/** Choosing the storage of a node that will hold ISO images.

    The storage listing is scanned in order; each record's name is resolved
    (the `storage` field when it is a string, else the `name` field when it is
    a string, else empty), records with an empty name are skipped, and the
    first remaining record whose `content` array holds the string "iso" wins.
 */
module StorageSelection {
  import opened Json
  import opened Client

  /** The name a storage record goes by. A string-typed `storage` field wins
      even when it is empty: there is no fall-back to `name` in that case. */
  function ResolveName(item: Record): (name: string)
    ensures StringAt(item, "storage").Some? ==> name == StringAt(item, "storage").value
    ensures StringAt(item, "storage").None? && StringAt(item, "name").Some? ==>
              name == StringAt(item, "name").value
    ensures StringAt(item, "storage").None? && StringAt(item, "name").None? ==> name == ""
  {
    match StringAt(item, "storage")
    case Some(s) => s
    case None =>
      match StringAt(item, "name")
      case Some(n) => n
      case None => ""
  }

  /** Scan of a `content` array for the content type "iso"; elements that are
      not strings are passed over. */
  function HasIsoTag(content: seq<Json>): (found: bool)
    ensures found <==> exists k :: 0 <= k < |content| && content[k] == JString("iso")
  {
    if |content| == 0 then false
    else if content[0].JString? && content[0].str == "iso" then true
    else HasIsoTag(content[1..])
  }

  /** The record advertises ISO content: its `content` is an array holding the
      string "iso". A `content` of any other kind counts as no content. */
  function AdvertisesIso(item: Record): (iso: bool)
    ensures iso <==>
      && "content" in item && item["content"].JArray?
      && exists k :: 0 <= k < |item["content"].elems| && item["content"].elems[k] == JString("iso")
  {
    "content" in item && item["content"].JArray? && HasIsoTag(item["content"].elems)
  }

  /** A record the scan accepts: a non-empty string `storage`, or no string
      `storage` and a non-empty string `name`; and ISO content. */
  function IsIsoStorage(item: Record): (accepted: bool)
    ensures accepted <==>
      && (|| ("storage" in item && item["storage"].JString? && item["storage"].str != "")
          || (!("storage" in item && item["storage"].JString?)
              && "name" in item && item["name"].JString? && item["name"].str != ""))
      && AdvertisesIso(item)
  {
    ResolveName(item) != "" && AdvertisesIso(item)
  }

  /** `i` is the position of the first accepted record of the listing. */
  ghost predicate IsFirstIsoStorage(items: seq<Record>, i: int) {
    && 0 <= i < |items|
    && IsIsoStorage(items[i])
    && forall j :: 0 <= j < i ==> !IsIsoStorage(items[j])
  }

  /** `name` is the name of the first accepted record of the listing. */
  ghost predicate NamesFirstIsoStorage(items: seq<Record>, name: string) {
    exists i :: IsFirstIsoStorage(items, i) && name == ResolveName(items[i])
  }

  /** No record of the listing is accepted. */
  ghost predicate NoneAccepted(items: seq<Record>) {
    forall i :: 0 <= i < |items| ==> !IsIsoStorage(items[i])
  }

  /** When the first record is not accepted, the first accepted record of
      the listing is that of its tail, and the listing has none iff the tail
      has none. */
  lemma PassOverFirst(items: seq<Record>, name: string)
    requires |items| > 0 && !IsIsoStorage(items[0])
    ensures NamesFirstIsoStorage(items[1..], name) ==> NamesFirstIsoStorage(items, name)
    ensures NoneAccepted(items) <==> NoneAccepted(items[1..])
  {
  }

  /** The selection rule over a decoded listing: first match in listing order,
      otherwise a not-found error naming the node. */
  function SelectIsoStorage(node: string, items: seq<Record>): (r: Result<string>)
    ensures r.Ok? ==> NamesFirstIsoStorage(items, r.value)
    ensures r.Err? <==> NoneAccepted(items)
    ensures r.Err? ==> r.error == NoIsoStorage(node)
    ensures r.Ok? ==> r.value != ""
  {
    if |items| == 0 then Err(NoIsoStorage(node))
    else if IsIsoStorage(items[0]) then Ok(ResolveName(items[0]))
    else
      var rest := SelectIsoStorage(node, items[1..]);
      PassOverFirst(items, if rest.Ok? then rest.value else "");
      rest
  }

  /** Whichever record is first accepted is the one whose name is returned:
      later accepted records are never chosen. */
  lemma ChoosesFirstIsoStorage(node: string, items: seq<Record>, i: int)
    requires IsFirstIsoStorage(items, i)
    ensures SelectIsoStorage(node, items) == Ok(ResolveName(items[i]))
  {
  }

  /** The whole operation: list the node's storages through the client and
      select among them. A transport failure is passed on unchanged and an
      undecodable listing is wrapped as a storage-list decode error. */
  function FindIsoStorageName(get: Path -> Reply<seq<Record>>, node: string): (r: Result<string>)
    ensures var reply := get(NodeStorages(node));
      && (reply.TransportFailed? ==> r == Err(Transport(reply.cause)))
      && (reply.Undecodable? ==> r == Err(Malformed(StorageList, reply.cause)))
      && (reply.Decoded? ==>
            && (r.Ok? <==> exists i :: 0 <= i < |reply.value| && IsIsoStorage(reply.value[i]))
            && (r.Err? ==> r.error == NoIsoStorage(node))
            && (r.Ok? ==> exists i :: IsFirstIsoStorage(reply.value, i) && r.value == ResolveName(reply.value[i])))
  {
    match get(NodeStorages(node))
    case TransportFailed(cause) => Err(Transport(cause))
    case Undecodable(cause) => Err(Malformed(StorageList, cause))
    case Decoded(items) => SelectIsoStorage(node, items)
  }

  /** Appending to a non-empty sequence keeps its head and appends to its
      tail. */
  lemma DropFirstOfAppend<T>(a: seq<T>, b: seq<T>)
    requires |a| > 0
    ensures (a + b)[0] == a[0] && (a + b)[1..] == a[1..] + b
  {
  }

  /** One step of the scan: a first record that is not accepted is passed
      over. */
  lemma SkipFirst(node: string, items: seq<Record>)
    requires |items| > 0 && !IsIsoStorage(items[0])
    ensures SelectIsoStorage(node, items) == SelectIsoStorage(node, items[1..])
  {
  }

  /** A first record that is not accepted is passed over also when more
      records follow the listing. */
  lemma SkipFirstOfAppend(node: string, items: seq<Record>, more: seq<Record>)
    requires |items| > 0 && !IsIsoStorage(items[0])
    ensures SelectIsoStorage(node, items + more) == SelectIsoStorage(node, items[1..] + more)
  {
    DropFirstOfAppend(items, more);
    SkipFirst(node, items + more);
  }

  /** Once a listing has produced a choice, records appended after it never
      change that choice. */
  lemma {:induction false} LaterRecordsIgnored(node: string, items: seq<Record>, more: seq<Record>)
    requires SelectIsoStorage(node, items).Ok?
    ensures SelectIsoStorage(node, items + more) == SelectIsoStorage(node, items)
  {
    assert |items| > 0;
    if IsIsoStorage(items[0]) {
      DropFirstOfAppend(items, more);
    } else {
      SkipFirst(node, items);
      LaterRecordsIgnored(node, items[1..], more);
      SkipFirstOfAppend(node, items, more);
    }
  }

  /** Records that are not accepted can be dropped from the front of a listing
      without changing the outcome. */
  lemma {:induction false} RejectedPrefixIgnored(node: string, prefix: seq<Record>, items: seq<Record>)
    requires forall j :: 0 <= j < |prefix| ==> !IsIsoStorage(prefix[j])
    ensures SelectIsoStorage(node, prefix + items) == SelectIsoStorage(node, items)
  {
    if |prefix| > 0 {
      DropFirstOfAppend(prefix, items);
      SkipFirst(node, prefix + items);
      RejectedPrefixIgnored(node, prefix[1..], items);
    } else {
      assert prefix + items == items;
    }
  }

  /** A record whose `storage` field is the empty string is never chosen, even
      when its `name` is a non-empty string and it advertises ISO content. */
  lemma EmptyStorageFieldSkipped(node: string, item: Record, items: seq<Record>)
    requires "storage" in item && item["storage"] == JString("")
    ensures ResolveName(item) == "" && !IsIsoStorage(item)
    ensures SelectIsoStorage(node, [item] + items) == SelectIsoStorage(node, items)
  {
  }

  /** A record with none of the inspected fields, which is also what a JSON
      `null` element of the listing decodes to, is passed over. */
  lemma EmptyRecordSkipped(node: string, items: seq<Record>)
    ensures !IsIsoStorage(map[])
    ensures SelectIsoStorage(node, [map[]] + items) == SelectIsoStorage(node, items)
  {
    RejectedPrefixIgnored(node, [map[]], items);
  }
}
