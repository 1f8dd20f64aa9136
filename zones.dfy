/**
 * The colour of a zone by its safety level (src/utils/zones.ts), with a fallback for
 * any level outside the four known ones.
 */
module Zones {
  /** The zone levels the app knows; any other string is a valid level too. */
  const KnownLevels: seq<string> := ["recommended", "neutral", "caution", "avoid"]

  const DefaultZoneColor := "#95a5a6"

  /** `getZoneColor`. */
  function GetZoneColor(level: string): (r: string)
    ensures r == DefaultZoneColor <==> level !in KnownLevels
  {
    if level == "recommended" then "#27ae60"
    else if level == "neutral" then "#3498db"
    else if level == "caution" then "#f39c12"
    else if level == "avoid" then "#e74c3c"
    else DefaultZoneColor
  }

  /** The colour table, entry by entry. */
  lemma ZoneColors()
    ensures GetZoneColor("recommended") == "#27ae60" && GetZoneColor("neutral") == "#3498db"
    ensures GetZoneColor("caution") == "#f39c12" && GetZoneColor("avoid") == "#e74c3c"
  {
  }

  /** Two levels share a colour exactly when they are the same level or both unknown:
      the four known colours differ from each other and from the default. */
  lemma ZoneColorTellsLevel(a: string, b: string)
    ensures GetZoneColor(a) == GetZoneColor(b) <==> a == b || (a !in KnownLevels && b !in KnownLevels)
  {
  }
}
