/** Starting a server-side download of an ISO image into a storage.

    The request carries a fixed set of three parameters; the reply wraps the
    task identifier (UPID) in `data`, either directly as a string or as the
    `upid` field of a nested object. The task is not waited for.
 */
module Download {
  import opened Json
  import opened Client

  /** The parameters of the download request. */
  function DownloadParams(isoName: string, sourceURL: string): (params: map<string, string>)
    ensures params.Keys == {"content", "filename", "url"}
    ensures params["content"] == "iso"
    ensures params["filename"] == isoName && params["url"] == sourceURL
  {
    map["content" := "iso", "filename" := isoName, "url" := sourceURL]
  }

  /** Nothing of the caller's input is lost in the request: distinct
      (file name, URL) pairs give distinct parameter sets. */
  lemma DownloadParamsInjective(isoName: string, sourceURL: string, isoName': string, sourceURL': string)
    requires DownloadParams(isoName, sourceURL) == DownloadParams(isoName', sourceURL')
    ensures isoName == isoName' && sourceURL == sourceURL'
  {
  }

  /** The task identifier inside a decoded reply wrapper. A string `data` is
      returned as it is, the empty string included; an object `data` yields
      its string `upid`; every other shape is an unexpected-response error
      carrying the wrapper. */
  function ExtractTaskId(wrapper: Record): (r: Result<string>)
    ensures r.Ok? <==>
      && "data" in wrapper
      && (wrapper["data"].JString? ||
          (wrapper["data"].JObject? && StringAt(wrapper["data"].fields, "upid").Some?))
    ensures "data" in wrapper && wrapper["data"].JString? ==> r == Ok(wrapper["data"].str)
    ensures "data" in wrapper && wrapper["data"].JObject? && r.Ok? ==>
              wrapper["data"].fields["upid"] == JString(r.value)
    ensures r.Err? ==> r.error == UnexpectedDownloadResponse(wrapper)
  {
    if "data" in wrapper then
      match wrapper["data"]
      case JString(v) => Ok(v)
      case JObject(fields) =>
        (match StringAt(fields, "upid")
         case Some(upid) => Ok(upid)
         case None => Err(UnexpectedDownloadResponse(wrapper)))
      case _ => Err(UnexpectedDownloadResponse(wrapper))
    else Err(UnexpectedDownloadResponse(wrapper))
  }

  /** A task identifier placed in either reply shape is recovered unchanged,
      whatever else the wrapper holds. */
  lemma TaskIdRoundTrip(wrapper: Record, nested: Record, upid: string)
    ensures ExtractTaskId(wrapper["data" := JString(upid)]) == Ok(upid)
    ensures ExtractTaskId(wrapper["data" := JObject(nested["upid" := JString(upid)])]) == Ok(upid)
  {
  }

  /** The whole operation: post the download request for the storage through
      the client and extract the task identifier from the reply. */
  function StartStorageDownload(
    post: (Path, map<string, string>) -> Reply<Record>,
    node: string, storage: string, isoName: string, sourceURL: string): (r: Result<string>)
    ensures var reply := post(StorageDownload(node, storage), DownloadParams(isoName, sourceURL));
      && (reply.TransportFailed? ==> r == Err(Transport(reply.cause)))
      && (reply.Undecodable? ==> r == Err(Malformed(DownloadResponse, reply.cause)))
      && (reply.Decoded? ==> r == ExtractTaskId(reply.value))
  {
    match post(StorageDownload(node, storage), DownloadParams(isoName, sourceURL))
    case TransportFailed(cause) => Err(Transport(cause))
    case Undecodable(cause) => Err(Malformed(DownloadResponse, cause))
    case Decoded(wrapper) => ExtractTaskId(wrapper)
  }
}
