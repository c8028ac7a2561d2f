# Proxmox ISO helpers — Dafny model

This project models the three helpers the Omni Proxmox infrastructure provider
uses to place an ISO image on a node:

- **storage selection** (`findISOStorageName`) — list the node's storages and
  pick the first one that advertises `iso` content;
- **ISO presence** (`storageHasISO`) — list a storage's content and report
  whether a volume with the given file name is already there;
- **download start** (`startStorageDownload`) — ask the storage to download an
  ISO from a URL and return the task identifier (UPID) of that download.

Each helper is one client call, one JSON decode and a small selection rule over
the decoded value. The rules are modelled as pure functions over a `Json`
datatype (`JString`, `JArray`, `JObject` over `map<string, Json>`, and `JOther`
for numbers, booleans and null). The Proxmox client is a function parameter
from a request to a `Reply`: a transport failure, a body that did not decode,
or the decoded value. Request paths are the `Path` datatype, one constructor
per path template.

Modules: `Json` (values and the checked string-field lookup), `Client` (paths,
replies, errors, results), `StorageSelection`, `IsoPresence`, `Download`.

Two behaviours of the code are worth knowing, and the model keeps both:

- Name resolution takes `storage` whenever it is a string, even an empty one,
  and never falls back to `name` in that case
  (internal/pkg/provider/proxmox_helpers.go:31-35). Such a record is then
  skipped (`StorageSelection.EmptyStorageFieldSkipped`).
- The `v == isoName` disjunct at internal/pkg/provider/proxmox_helpers.go:70
  is implied by the suffix test (`IsoPresence.ExactVolidIsSuffix`). So an
  empty file name matches every record with a string `volid`.

## Model

| member | source | states |
|---|---|---|
| StorageSelection.ResolveName | internal/pkg/provider/proxmox_helpers.go:30-35 | a string `storage` field is the name even when empty; `name` is used only when `storage` is absent or not a string; otherwise the name is empty |
| StorageSelection.HasIsoTag | internal/pkg/provider/proxmox_helpers.go:42-47 | a content array advertises ISO iff some element is the string "iso"; non-string elements never count |
| StorageSelection.AdvertisesIso | internal/pkg/provider/proxmox_helpers.go:42-48 | a record advertises ISO iff its `content` is an array with the string "iso" among its elements; any other `content` counts as none |
| StorageSelection.IsIsoStorage | internal/pkg/provider/proxmox_helpers.go:37-48 | a record is accepted iff it has a non-empty string `storage`, or no string `storage` and a non-empty string `name`, and it advertises ISO |
| StorageSelection.PassOverFirst | internal/pkg/provider/proxmox_helpers.go:37-49 | when the first record is not accepted, the first accepted record of the tail is the first of the listing, and the listing has none iff the tail has none |
| StorageSelection.SelectIsoStorage | internal/pkg/provider/proxmox_helpers.go:28-51 | a success is the resolved name of the first record, in listing order, that has a non-empty name and ISO content; that name is non-empty; the result is a not-found error naming the node iff no record qualifies, including an empty listing |
| StorageSelection.SkipFirst | internal/pkg/provider/proxmox_helpers.go:37-49 | a first record that is not accepted is passed over: selection equals selection on the rest |
| StorageSelection.ChoosesFirstIsoStorage | internal/pkg/provider/proxmox_helpers.go:28-48 | whenever record i is the first qualifying one, selection returns exactly its name, so later qualifying records are never chosen |
| StorageSelection.FindIsoStorageName | internal/pkg/provider/proxmox_helpers.go:14-51 | queries the node's storage path; a transport error is passed on unchanged; a decode failure becomes a storage-list decode error keeping the cause; a decoded listing succeeds iff some record qualifies, and then with the first one's name |
| StorageSelection.LaterRecordsIgnored | internal/pkg/provider/proxmox_helpers.go:43-45 | once a listing yields a storage, appending records never changes the choice (first match wins, no best-match scan) |
| StorageSelection.SkipFirstOfAppend | internal/pkg/provider/proxmox_helpers.go:37-49 | a first record that is not accepted is passed over also when more records follow: selection on the extended listing equals selection on its extended tail |
| StorageSelection.RejectedPrefixIgnored | internal/pkg/provider/proxmox_helpers.go:37-48 | records that do not qualify can be removed from the front of a listing without changing the outcome |
| StorageSelection.EmptyStorageFieldSkipped | internal/pkg/provider/proxmox_helpers.go:30-39 | a record whose `storage` is the empty string resolves to the empty name and is skipped, whatever its `name` and `content` |
| StorageSelection.EmptyRecordSkipped | internal/pkg/provider/proxmox_helpers.go:28-39 | a record with no fields, which is what a JSON `null` element decodes to, is not accepted and drops out of the selection |
| Json.StringAt | internal/pkg/provider/proxmox_helpers.go:31-35 | the checked string assertion on a field: a value exactly when the key is present and holds a string, and then that string; an absent key and a non-string value look the same |
| IsoPresence.TailTestIsEndsWith | internal/pkg/provider/proxmox_helpers.go:70 | the length-and-tail comparison holds iff the string is some prefix followed by the suffix |
| IsoPresence.HasSuffix | internal/pkg/provider/proxmox_helpers.go:70 | the suffix test holds iff the string is some prefix followed by the suffix |
| IsoPresence.VolidMatches | internal/pkg/provider/proxmox_helpers.go:69-73 | the `volid` test, suffix or equality, holds iff the record has a string `volid` ending with the ISO name |
| IsoPresence.NameMatches | internal/pkg/provider/proxmox_helpers.go:74-78 | the `name` test holds iff the record has a `name` that is the ISO name as a string |
| IsoPresence.HoldsIso | internal/pkg/provider/proxmox_helpers.go:69-78 | a record holds the ISO iff its string `volid` ends with the name or its string `name` equals it; a non-matching `volid` does not stop the `name` test |
| IsoPresence.ContainsIso | internal/pkg/provider/proxmox_helpers.go:67-81 | the scan reports true iff some record of the listing holds the ISO |
| IsoPresence.StorageHasIso | internal/pkg/provider/proxmox_helpers.go:56-81 | queries the storage's content path; transport and decode failures are the only errors; a decoded listing always succeeds, with true iff some record holds the ISO, so absence is a plain false |
| IsoPresence.ExactVolidIsSuffix | internal/pkg/provider/proxmox_helpers.go:70 | the equality disjunct is subsumed: suffix-or-equal holds iff the suffix test holds |
| IsoPresence.PrefixedVolidMatches | internal/pkg/provider/proxmox_helpers.go:69-72 | a record whose string `volid` is any string followed by the ISO name holds the ISO |
| IsoPresence.ComposedVolidMatches | internal/pkg/provider/proxmox_helpers.go:68-71 | a `volid` of the form `<storage>:iso/<file>` matches the file name |
| IsoPresence.EmptyNameMatchesAnyVolid | internal/pkg/provider/proxmox_helpers.go:69-72 | with an empty ISO name, any listing holding a record with a string `volid` reports the ISO present |
| IsoPresence.SuffixFalsePositive | internal/pkg/provider/proxmox_helpers.go:69-72 | `os.iso` is reported present when only `local:iso/centos.iso` is stored: the suffix rule is tolerant |
| Download.DownloadParams | internal/pkg/provider/proxmox_helpers.go:87-91 | the request parameters have exactly the keys `content`, `filename`, `url`, with `content = "iso"`, `filename` the ISO name and `url` the source URL |
| Download.DownloadParamsInjective | internal/pkg/provider/proxmox_helpers.go:87-91 | the file name and URL are recoverable from the parameters: equal parameter sets come from equal inputs |
| Download.ExtractTaskId | internal/pkg/provider/proxmox_helpers.go:107-118 | succeeds iff `data` is a string, or an object with a string `upid`; a string `data` is returned unchanged, the empty string included; an object yields its `upid`; every other shape is an unexpected-response error carrying the wrapper |
| Download.TaskIdRoundTrip | internal/pkg/provider/proxmox_helpers.go:101-114 | a UPID put into either reply shape, `{"data": id}` or `{"data": {"upid": id}}`, is extracted unchanged whatever other fields are present |
| Download.StartStorageDownload | internal/pkg/provider/proxmox_helpers.go:85-118 | posts the fixed parameters to the storage's download path; a transport error is passed on unchanged; a decode failure becomes a download-response decode error keeping the cause; otherwise the task id is extracted from the decoded wrapper |

## Left out

- The Proxmox client's `Get` and `Post` and the request context: network I/O through a client whose code is not part of this model. The client is a function parameter instead.
- The JSON decoder: its output is the `Json` value in a `Reply`, and a parse failure is the `Undecodable` reply. Which bodies fail to decode is not modelled. For the record listings, a JSON `null` element decodes to an empty record (`StorageSelection.EmptyRecordSkipped`) and any other non-object element is a decode failure. A `null` download body decodes to an empty wrapper, which gives the unexpected-response error rather than a decode error.
- Byte strings: the code's strings are byte strings, and its suffix and equality tests compare bytes. The model's strings are sequences of Unicode characters. The two agree on valid UTF-8, which is all the decoder produces. A file name that is not valid UTF-8 cannot be expressed in the model; for such a name the code can match partway through a character.
- Path formatting with `fmt.Sprintf` and the exact error text: paths are the structured `Path` datatype; errors are the `Error` datatype, carrying the node, the decoder's cause or the decoded wrapper.
- Waiting for the download task: the code returns the UPID and does not poll it.
