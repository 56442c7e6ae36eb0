/** The healthcheck notifier: the `{pingkey}` placeholder of a job's URL is
    replaced by the secret ping key and one GET is sent. The network is an input
    (`get`, what the server answers for a URL); the 10-second client timeout shows
    up only as a `TransportError` answer. */
module Healthcheck {
  import opened Wrappers
  import opened GoStrings

  const Placeholder := "{pingkey}"

  /** What one GET produced. */
  datatype Response = Reply(status: int) | TransportError

  datatype HealthcheckError = RequestFailed | BadStatus(status: int)

  /** The URL actually requested: every `{pingkey}` replaced by the key. */
  function FinalUrl(url: string, pingKey: string): string {
    ReplaceAll(url, Placeholder, pingKey)
  }

  /** The 2xx (Successful) class of section 15.3 of RFC 9110. */
  predicate IsSuccessStatus(status: int) {
    200 <= status < 300
  }

  /** SendHealthcheck: one request to the substituted URL, no retry; success
      exactly when the server answers with a 2xx status. */
  function SendHealthcheck(url: string, pingKey: string, get: string -> Response): (r: Option<HealthcheckError>)
    ensures r.None? <==> get(FinalUrl(url, pingKey)).Reply? && IsSuccessStatus(get(FinalUrl(url, pingKey)).status)
    ensures get(FinalUrl(url, pingKey)).TransportError? ==> r == Some(RequestFailed)
    ensures get(FinalUrl(url, pingKey)).Reply? && !IsSuccessStatus(get(FinalUrl(url, pingKey)).status) ==>
              r == Some(BadStatus(get(FinalUrl(url, pingKey)).status))
  {
    match get(FinalUrl(url, pingKey))
    case TransportError => Some(RequestFailed)
    case Reply(status) =>
      if status < 200 || status >= 300 then Some(BadStatus(status)) else None
  }

  /** A URL without the placeholder is requested as it is. */
  lemma NoPlaceholderUnchanged(url: string, pingKey: string)
    requires !Occurs(url, Placeholder)
    ensures FinalUrl(url, pingKey) == url
  {
    ReplaceAllAbsent(url, Placeholder, pingKey);
  }

  /** Substitution is the template cut at each placeholder and glued back with the key. */
  lemma SubstitutionIsSplitJoin(url: string, pingKey: string)
    ensures FinalUrl(url, pingKey) == Join(Split(url, Placeholder), pingKey)
  {
    ReplaceAllIsSplitJoin(url, Placeholder, pingKey);
  }

  /** For a template `prefix + "{pingkey}/" + name` whose prefix has no `{` and whose
      name holds no placeholder, the key lands exactly where the placeholder was. */
  lemma {:induction false} TemplateSubstitution(prefix: string, name: string, pingKey: string)
    requires '{' !in prefix
    requires !Occurs(name, Placeholder)
    ensures FinalUrl(prefix + Placeholder + "/" + name, pingKey) == prefix + pingKey + "/" + name
  {
    var tail := "/" + name;
    assert prefix + Placeholder + "/" + name == prefix + (Placeholder + tail);
    ReplaceAllCopiesPrefix(prefix, Placeholder + tail, Placeholder, pingKey);
    ReplaceAllAtFront(tail, Placeholder, pingKey);
    assert !HasPrefix(tail, Placeholder) by { assert tail[0] == '/'; }
    assert tail[1..] == name;
    assert !Occurs(tail, Placeholder);
    ReplaceAllAbsent(tail, Placeholder, pingKey);
  }
}
