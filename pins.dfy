/**
 * The marker look of a pin (src/utils/pins.ts): its colour and its icon name, both
 * chosen by the pin's type, with a fallback for any type outside the four known ones.
 */
module Pins {
  /** The pin types the app knows; any other string is a valid type too. */
  const KnownKinds: seq<string> := ["scam", "harassment", "overcharge", "other"]

  const DefaultPinColor := "#95a5a6"
  const DefaultPinIcon := "location"

  /** `getPinColor`. */
  function GetPinColor(kind: string): (r: string)
    ensures r == DefaultPinColor <==> kind !in KnownKinds
  {
    if kind == "scam" then "#e74c3c"
    else if kind == "harassment" then "#f39c12"
    else if kind == "overcharge" then "#9b59b6"
    else if kind == "other" then "#3498db"
    else DefaultPinColor
  }

  /** `getPinIcon`: an Ionicons name. */
  function GetPinIcon(kind: string): (r: string)
    ensures r == DefaultPinIcon <==> kind !in KnownKinds
  {
    if kind == "scam" then "warning"
    else if kind == "harassment" then "person-remove"
    else if kind == "overcharge" then "cash"
    else if kind == "other" then "information-circle"
    else DefaultPinIcon
  }

  /** The colour table, entry by entry. */
  lemma PinColors()
    ensures GetPinColor("scam") == "#e74c3c" && GetPinColor("harassment") == "#f39c12"
    ensures GetPinColor("overcharge") == "#9b59b6" && GetPinColor("other") == "#3498db"
  {
  }

  /** The icon table, entry by entry. */
  lemma PinIcons()
    ensures GetPinIcon("scam") == "warning" && GetPinIcon("harassment") == "person-remove"
    ensures GetPinIcon("overcharge") == "cash" && GetPinIcon("other") == "information-circle"
  {
  }

  /** Two types share a colour exactly when they are the same type or both unknown:
      the four known colours differ from each other and from the default. */
  lemma PinColorTellsKind(a: string, b: string)
    ensures GetPinColor(a) == GetPinColor(b) <==> a == b || (a !in KnownKinds && b !in KnownKinds)
  {
  }

  /** The same holds of the icons. */
  lemma PinIconTellsKind(a: string, b: string)
    ensures GetPinIcon(a) == GetPinIcon(b) <==> a == b || (a !in KnownKinds && b !in KnownKinds)
  {
  }

  /** Colour and icon always agree on the type: a marker's colour gives its icon. */
  lemma ColorGivesIcon(a: string, b: string)
    ensures GetPinColor(a) == GetPinColor(b) <==> GetPinIcon(a) == GetPinIcon(b)
  {
    PinColorTellsKind(a, b);
    PinIconTellsKind(a, b);
  }
}
