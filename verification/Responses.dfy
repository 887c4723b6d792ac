/** The parts of RDAP responses that storage and redirection look at. */
module Responses {
  import opened Wrappers

  datatype Link = Link(
    value: Option<string>,
    rel: Option<string>,
    href: Option<string>,
    mediaType: Option<string>)

  datatype Notice = Notice(links: Option<seq<Link>>, description: Option<seq<string>>)

  datatype Error = Error(
    errorCode: nat,
    notices: Option<seq<Notice>>,
    title: Option<string>,
    description: Option<seq<string>>)

  /** The class of an object and the rest of its fields, which nothing here inspects. */
  datatype Body = Body(links: Option<seq<Link>>, rest: string)

  datatype Domain = Domain(ldhName: Option<string>, unicodeName: Option<string>, body: Body)
  datatype Entity = Entity(handle: Option<string>, body: Body)
  datatype Nameserver = Nameserver(ldhName: Option<string>, unicodeName: Option<string>, body: Body)
  datatype Autnum = Autnum(startAutnum: Option<nat>, endAutnum: Option<nat>, body: Body)
  datatype Network = Network(cidrs: seq<seq<bool>>, v4: bool, body: Body)

  datatype Response =
    | DomainResponse(domain: Domain)
    | EntityResponse(entity: Entity)
    | NameserverResponse(nameserver: Nameserver)
    | AutnumResponse(autnum: Autnum)
    | NetworkResponse(network: Network)
    | ErrorResponse(error: Error)
    | HelpResponse(rest: string)
  {
    predicate IsRedirect() {
      ErrorResponse? && 299 < error.errorCode < 400
    }
  }

  const RDAP_MEDIA_TYPE := "application/rdap+json"

  /** `Error::new_redirect` */
  function NewRedirect(url: string): Error {
    Error(307, Some([Notice(Some([Link(Some(url), Some("related"), Some(url), Some(RDAP_MEDIA_TYPE))]), None)]), None, None)
  }

  const NOT_FOUND := ErrorResponse(Error(404, None, None, None))
  const BAD_REQUEST := ErrorResponse(Error(400, None, None, None))

  /** The address of the first link of the first notice, where a redirect keeps its target. */
  function RedirectTarget(e: Error): Option<string> {
    if e.notices.None? || e.notices.value == [] then None
    else
      var links := e.notices.value[0].links;
      if links.None? || links.value == [] then None else links.value[0].href
  }
}
