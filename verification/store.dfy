/** The Steam store name lookup (`get_game_name`) with the network call turned
    into a parameter: the reply the store gave for the appid. */
module Store {
  import opened Wrappers
  import opened Text
  import opened Manifests

  /** What the `appdetails` request produced for the id it was sent, which is
      `RequestId(appid)`: the appid without leading zeros. */
  datatype StoreReply =
    | Failed                        // the request, the JSON decoding or a lookup in it raised
    | NoDetails                     // no entry for the appid, a false `success`, or no `data`
    | Details(name: Option<string>) // `success` with `data`, which may lack a `name`

  function DigitValue(c: char): nat
    requires IsDigit(c)
  {
    (c as int) - ('0' as int)
  }

  function Pow10(n: nat): (r: nat)
    ensures r > 0
  {
    if n == 0 then 1 else 10 * Pow10(n - 1)
  }

  /** The number a digit string denotes. */
  function DecimalValue(s: string): nat
    requires forall k :: 0 <= k < |s| ==> IsDigit(s[k])
  {
    if s == [] then 0 else DigitValue(s[0]) * Pow10(|s| - 1) + DecimalValue(s[1..])
  }

  /** `str(int(s))` for a digit string: the same number without leading zeros. */
  function Canonical(s: string): (r: string)
    requires IsDigitString(s)
    ensures IsDigitString(r) && |r| <= |s|
    ensures DecimalValue(r) == DecimalValue(s)
    ensures r[0] != '0' || r == "0"
  {
    if |s| > 1 && s[0] == '0' then Canonical(s[1..]) else s
  }

  /** The id `get_game_name` sends to the store and reads back from its reply.
      Only digit strings reach the request; for anything else no reply is used. */
  function RequestId(appid: string): string {
    if IsDigitString(appid) then Canonical(appid) else appid
  }

  /** `get_game_name`: the store's name when it gave one, a placeholder otherwise.
      Only digit strings get as far as the request; anything else makes `int()`
      raise and falls back to the placeholder. */
  function GetGameName(appid: string, reply: StoreReply): (r: string)
    ensures !IsDigitString(appid) ==> r == Placeholder(appid)
    ensures reply.Failed? || reply.NoDetails? ==> r == Placeholder(appid)
    ensures IsDigitString(appid) && reply.Details? && reply.name.Some? ==> r == reply.name.value
    ensures IsDigitString(appid) && reply == Details(None) ==> r == Placeholder(Canonical(appid))
  {
    if !IsDigitString(appid) then Placeholder(appid)
    else
      match reply
      case Details(Some(n)) => n
      case Details(None) => Placeholder(Canonical(appid))
      case _ => Placeholder(appid)
  }
}
