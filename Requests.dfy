/**
 * The requests the console sends to the remote catalog (app.js fetchData and
 * saveProduct): the list URL with its offset/limit/title query, the choice
 * between creating (POST) and updating (PUT), and what a save does next
 * depending on the response. `encode` stands for encodeURIComponent, whose
 * internals are not modelled.
 */
module Requests {
  import opened Wrappers
  import opened Text
  import opened Decimal
  import opened Catalog
  import opened Paging

  /** `API_BASE`. */
  const ApiBase: string := "https://api.escuelajs.co/api/v1/products"

  /**
   * The list URL fetchData builds for a page: offset and limit always, the
   * encoded search text as `title` only when the search box is not empty.
   */
  function ListUrl(base: string, page: int, size: int, search: string, encode: string -> string): string {
    base + "?offset=" + IntToString(Offset(page, size)) + "&limit=" + IntToString(size)
      + (if search != "" then "&title=" + encode(search) else "")
  }

  /** Reads the offset, the limit and the optional title back out of a list URL. */
  function ParseListUrl(base: string, url: string): Option<(int, int, Option<string>)> {
    match StripPrefix(base + "?offset=", url)
    case None => None
    case Some(r1) =>
      match ReadInt(r1)
      case None => None
      case Some((offset, r2)) =>
        match StripPrefix("&limit=", r2)
        case None => None
        case Some(r3) =>
          match ReadInt(r3)
          case None => None
          case Some((limit, r4)) =>
            if r4 == "" then Some((offset, limit, None))
            else
              match StripPrefix("&title=", r4)
              case None => None
              case Some(t) => Some((offset, limit, Some(t)))
  }

  /**
   * Every list URL carries the page's offset and the page size, and carries
   * the encoded search text exactly when the search is not empty.
   */
  lemma ListUrlRoundTrip(base: string, page: int, size: int, search: string, encode: string -> string)
    ensures ParseListUrl(base, ListUrl(base, page, size, search, encode))
      == Some((Offset(page, size), size, if search != "" then Some(encode(search)) else None))
  {
    var offset := Offset(page, size);
    var tail := if search != "" then "&title=" + encode(search) else "";
    var r3 := IntToString(size) + tail;
    var r2 := "&limit=" + r3;
    var r1 := IntToString(offset) + r2;
    var b, o, l, n := base + "?offset=", IntToString(offset), "&limit=", IntToString(size);
    Assoc(b + o + l, n, tail);
    Assoc(b + o, l, n + tail);
    Assoc(b, o, l + (n + tail));
    StripPrefixOfConcat(base + "?offset=", r1);
    ReadIntOfIntToString(offset, r2);
    StripPrefixOfConcat("&limit=", r3);
    assert tail == [] || !IsDigit(tail[0]);
    ReadIntOfIntToString(size, tail);
    if search != "" {
      StripPrefixOfConcat("&title=", encode(search));
    }
  }

  /** The first request of the initial load: page 1 of 10, no search. */
  lemma InitialListUrl(encode: string -> string)
    ensures ParseListUrl(ApiBase, ListUrl(ApiBase, 1, 10, "", encode)) == Some((0, 10, None))
  {
    ListUrlRoundTrip(ApiBase, 1, 10, "", encode);
  }

  datatype HttpMethod = Post | Put

  datatype SaveRequest = SaveRequest(verb: HttpMethod, url: string)

  /** saveProduct: a non-empty form id updates `base/id` with PUT, an empty one creates with POST to `base`. */
  function SaveRequestFor(base: string, id: string): (r: SaveRequest)
    ensures r.verb == Put <==> id != ""
    ensures r.verb == Put ==> r.url == base + "/" + id
    ensures r.verb == Post ==> r.url == base
  {
    if id != "" then SaveRequest(Put, base + "/" + id) else SaveRequest(Post, base)
  }

  /** Different non-empty ids are saved to different URLs, and never to the creation URL. */
  lemma SaveTargetsDistinct(base: string, id1: string, id2: string)
    requires id1 != "" && id1 != id2
    ensures SaveRequestFor(base, id1).url != SaveRequestFor(base, id2).url
    ensures SaveRequestFor(base, id1).url != SaveRequestFor(base, "").url
  {
    if id2 != "" {
      assert SaveRequestFor(base, id1).url[|base| + 1..] == id1;
      assert SaveRequestFor(base, id2).url[|base| + 1..] == id2;
    }
  }

  /** The id field the edit form is filled with: `formId.value = p.id`. */
  function EditFormId(p: Product): (id: string)
    ensures id != ""
  {
    IntToString(p.id)
  }

  /**
   * Saving the form opened for an existing product updates that product and no
   * other: the edit form always PUTs, and two products with different ids
   * are saved to different URLs. The create form (empty id) always POSTs.
   */
  lemma EditFormUpdatesItsProduct(base: string, p: Product, q: Product)
    ensures SaveRequestFor(base, EditFormId(p)) == SaveRequest(Put, base + "/" + IntToString(p.id))
    ensures p.id != q.id ==> SaveRequestFor(base, EditFormId(p)).url != SaveRequestFor(base, EditFormId(q)).url
    ensures SaveRequestFor(base, "") == SaveRequest(Post, base)
  {
    if p.id != q.id && EditFormId(p) == EditFormId(q) {
      IntToStringInjective(p.id, q.id);
    }
    if p.id != q.id {
      SaveTargetsDistinct(base, EditFormId(p), EditFormId(q));
    }
  }

  /** How the save request ended: a success status, another status, or a rejected request. */
  datatype SaveResponse = Ok | NotOk | Rejected

  datatype Notice = Updated | Created | SaveFailed

  /** What a save does, in order: the request, then notices and the list refresh. */
  datatype Effect = Send(request: SaveRequest) | Notify(notice: Notice) | Refresh

  /**
   * saveProduct: one request; on success a notice naming update (non-empty
   * id) or creation (empty id) followed by one refresh of the list; on a
   * rejected request only the generic failure notice; on a non-success status
   * nothing further.
   */
  function SaveEffects(base: string, id: string, response: SaveResponse): (effects: seq<Effect>)
    ensures |effects| >= 1 && effects[0] == Send(SaveRequestFor(base, id))
    ensures forall i :: 0 < i < |effects| ==> !effects[i].Send?
    ensures Refresh in effects <==> response == Ok
    ensures multiset(effects)[Refresh] <= 1
    ensures Notify(SaveFailed) in effects <==> response == Rejected
    ensures response == Ok ==> effects[|effects| - 1] == Refresh
    ensures Notify(Updated) in effects <==> response == Ok && id != ""
    ensures Notify(Created) in effects <==> response == Ok && id == ""
    ensures response == NotOk ==> |effects| == 1
    ensures response == Rejected ==> |effects| == 2
    ensures response == Ok ==> |effects| == 3
  {
    var send := Send(SaveRequestFor(base, id));
    match response
    case Ok => [send, Notify(if id != "" then Updated else Created), Refresh]
    case NotOk => [send]
    case Rejected => [send, Notify(SaveFailed)]
  }

  /** Submitting the blank create form sends exactly one POST and, on success, refreshes exactly once. */
  lemma CreateFlow(base: string)
    ensures SaveEffects(base, "", Ok) == [Send(SaveRequest(Post, base)), Notify(Created), Refresh]
  {
  }
}
