/**
 * What `get_companies_info` makes of one response of the listing endpoint:
 * the two early exits (a status other than 200, a blank `html` payload) and
 * one company record per company block of the page, each field taken from
 * the block's XPath matches by `_get_value` or `_get_list`.
 *
 * Parsing HTML and running XPath are left to the caller: `blocks` stands for
 * `lxml.html.fromstring` followed by the queries of one `div.company`, and
 * `siteLinks` for fetching a company page and querying its site link.
 */
module Companies {
  import opened Fields

  /** The matches of the XPath queries run on one company block. */
  datatype Block = Block(
    names: seq<string>,         // a.cn-a text
    imageUrls: seq<string>,     // img src on the static companies image host
    cities: seq<string>,        // span.city text
    descriptions: seq<string>,  // div.descr text
    companyUrls: seq<string>    // a.cn-a href
  )

  /** One harvested company, with the keys the source's dictionary has. */
  datatype Company = Company(
    name: string,
    imageUrl: string,
    cities: ListField,
    description: string,
    companyUrl: string,
    websiteUrl: string
  ) {
    /** The text fields by the dictionary key the source uses for them. */
    function Get(key: string): string
      requires key in TextKeys
    {
      match key
      case "name" => name
      case "image_url" => imageUrl
      case "description" => description
      case "company_url" => companyUrl
      case _ => websiteUrl
    }
  }

  /** The dictionary keys whose values are strings (`cities` holds a list). */
  const TextKeys: set<string> := {"name", "image_url", "description", "company_url", "website_url"}

  /** An answer of the listing endpoint: its HTTP status and the `html`
      member of its JSON body. */
  datatype Response = Response(status: int, html: string)

  /** `get_company_site_url`: the first site link on the company's own page,
      stripped, or `''` when there is none. */
  function GetCompanySiteUrl(url: string, siteLinks: string -> seq<string>): (site: string)
    ensures siteLinks(url) == [] ==> site == []
    ensures siteLinks(url) != [] ==> IsTrimOf(site, siteLinks(url)[0])
  {
    GetValue(siteLinks(url))
  }

  /** The record built for one company block: a text field is empty exactly
      when its query matched nothing or only whitespace, otherwise it is the
      trimmed first match; the site is looked up at the block's own company
      link. */
  function CompanyFromBlock(b: Block, siteLinks: string -> seq<string>): (c: Company)
    ensures c.name == [] <==> b.names == [] || AllSpace(b.names[0])
    ensures c.imageUrl == [] <==> b.imageUrls == [] || AllSpace(b.imageUrls[0])
    ensures c.description == [] <==> b.descriptions == [] || AllSpace(b.descriptions[0])
    ensures c.companyUrl == [] <==> b.companyUrls == [] || AllSpace(b.companyUrls[0])
    ensures b.names != [] ==> IsTrimOf(c.name, b.names[0])
    ensures b.imageUrls != [] ==> IsTrimOf(c.imageUrl, b.imageUrls[0])
    ensures b.descriptions != [] ==> IsTrimOf(c.description, b.descriptions[0])
    ensures b.companyUrls != [] ==> IsTrimOf(c.companyUrl, b.companyUrls[0])
    ensures c.cities == GetList(b.cities)
    ensures c.cities == EmptyText <==> b.cities == []
    ensures c.cities.Parts? ==> IsTrimOf(Join(c.cities.items, ','), b.cities[0])
    ensures c.websiteUrl == GetCompanySiteUrl(c.companyUrl, siteLinks)
    ensures siteLinks(c.companyUrl) != [] ==> IsTrimOf(c.websiteUrl, siteLinks(c.companyUrl)[0])
    ensures c.websiteUrl == [] <==> siteLinks(c.companyUrl) == [] || AllSpace(siteLinks(c.companyUrl)[0])
  {
    var name := GetValue(b.names);
    var imageUrl := GetValue(b.imageUrls);
    var description := GetValue(b.descriptions);
    var companyUrl := GetValue(b.companyUrls);
    var websiteUrl := GetCompanySiteUrl(companyUrl, siteLinks);
    Company(name, imageUrl, GetList(b.cities), description, companyUrl, websiteUrl)
  }

  /** `get_companies_info`: nothing for a status other than 200 or a payload
      that is only whitespace; otherwise one record per company block of the
      stripped payload, in page order. */
  function CompaniesInfo(response: Response, blocks: string -> seq<Block>, siteLinks: string -> seq<string>)
    : (companies: seq<Company>)
    ensures response.status != 200 ==> companies == []
    ensures AllSpace(response.html) ==> companies == []
    ensures response.status == 200 && !AllSpace(response.html) ==>
      var found := blocks(Strip(response.html));
      && |companies| == |found|
      && forall i :: 0 <= i < |found| ==> companies[i] == CompanyFromBlock(found[i], siteLinks)
  {
    if response.status != 200 then []
    else
      var html := Strip(response.html);
      TrimEmptyIffBlank(html, response.html);
      if html == [] then []
      else
        var found := blocks(html);
        seq(|found|, i requires 0 <= i < |found| => CompanyFromBlock(found[i], siteLinks))
  }

  /** A failed request yields the same empty list as a genuine end-of-data
      page, so whoever consumes the list cannot tell the two apart. */
  lemma FailureLooksLikeEndOfData(status: int, html: string, blocks: string -> seq<Block>, siteLinks: string -> seq<string>)
    requires status != 200
    ensures CompaniesInfo(Response(status, html), blocks, siteLinks) == CompaniesInfo(Response(200, " "), blocks, siteLinks)
  {
  }
}
