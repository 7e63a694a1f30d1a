/**
 * `search_steam_games` (app.py): the storefront search response is cut to
 * its first five items and each item is given the URL of its header
 * capsule image, built from the item's own id.
 */
module SteamSearch {
  import opened Common
  import opened Decimal

  const MaxResults: nat := 5
  const CapsulePrefix: string := "https://cdn.cloudflare.steamstatic.com/steam/apps/"
  const CapsuleSuffix: string := "/header.jpg"

  /**
   * One entry of the response's `items` list; `id` is `None` when the entry
   * has no `id` key, and `capsuleImage` is the key the handler writes.
   */
  datatype SearchItem = SearchItem(id: Option<nat>, name: string, capsuleImage: Option<string>)

  /** How an f-string renders `item.get('id')`. */
  function IdText(id: Option<nat>): (text: string)
    ensures id.Some? ==> text == DecimalString(id.value)
    ensures id.None? ==> text == "None"
  {
    match id
    case Some(n) => DecimalString(n)
    case None => "None"
  }

  /** The capsule image URL for an id. */
  function CapsuleUrl(id: Option<nat>): (url: string)
    ensures |url| == |CapsulePrefix| + |IdText(id)| + |CapsuleSuffix|
  {
    CapsulePrefix + IdText(id) + CapsuleSuffix
  }

  /** The URL is the CDN prefix, then the id as text, then `/header.jpg`. */
  lemma CapsuleUrlParts(id: Option<nat>)
    ensures CapsuleUrl(id)[..|CapsulePrefix|] == CapsulePrefix
    ensures CapsuleUrl(id)[|CapsulePrefix|..|CapsuleUrl(id)| - |CapsuleSuffix|] == IdText(id)
    ensures CapsuleUrl(id)[|CapsuleUrl(id)| - |CapsuleSuffix|..] == CapsuleSuffix
  {
  }

  /** The item as returned: unchanged except for its `capsule_image`. */
  function WithCapsule(item: SearchItem): SearchItem
  {
    item.(capsuleImage := Some(CapsuleUrl(item.id)))
  }

  /**
   * The handler: a 200 response yields at most five items, in response order,
   * each keeping its fields and carrying its own capsule URL; a non-200 status
   * or an exception yields the empty list.
   */
  method SearchSteamGames(response: Fetch<seq<SearchItem>>) returns (items: seq<SearchItem>)
    ensures !response.Ok? ==> items == []
    ensures response.Ok? ==> |items| == Min(|response.body|, MaxResults)
    ensures response.Ok? ==> forall i :: 0 <= i < |items| ==>
      items[i].id == response.body[i].id && items[i].name == response.body[i].name &&
      items[i].capsuleImage == Some(CapsuleUrl(response.body[i].id))
  {
    if !response.Ok? {
      return [];
    }
    var all := response.body;
    items := if |all| <= MaxResults then all else all[..MaxResults];
    var i := 0;
    while i < |items|
      invariant 0 <= i <= |items| == Min(|all|, MaxResults)
      invariant forall k :: 0 <= k < i ==> items[k] == WithCapsule(all[k])
      invariant forall k :: i <= k < |items| ==> items[k] == all[k]
    {
      var appId := items[i].id;
      items := items[i := items[i].(capsuleImage := Some(CapsuleUrl(appId)))];
      i := i + 1;
    }
  }

  lemma DecimalIsNotNone(n: nat)
    ensures DecimalString(n) != "None"
  {
    assert IsDigit(DecimalString(n)[0]);
  }

  lemma IdTextInjective(a: Option<nat>, b: Option<nat>)
    requires IdText(a) == IdText(b)
    ensures a == b
  {
    match (a, b)
    case (Some(m), Some(n)) => DecimalStringInjective(m, n);
    case (Some(m), None) => DecimalIsNotNone(m);
    case (None, Some(n)) => DecimalIsNotNone(n);
    case (None, None) =>
  }

  /** The URL determines the id it was built from. */
  lemma CapsuleUrlInjective(a: Option<nat>, b: Option<nat>)
    requires CapsuleUrl(a) == CapsuleUrl(b)
    ensures a == b
  {
    CapsuleUrlParts(a);
    CapsuleUrlParts(b);
    IdTextInjective(a, b);
  }
}
