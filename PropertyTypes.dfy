/** The map marker style of a property type (`getPropertyTypeColor`,
    `getPropertyTypeIcon`): a fixed table with a fallback. The lookup uses
    the record's type as stored, so it is case-sensitive. */
module PropertyTypes {

  const DefaultColor: string := "#95a5a6"
  const DefaultIcon: string := "\U{1F3E0}"

  const Colors: map<string, string> := map[
    "apartment" := "#667eea",
    "hotel" := "#e74c3c",
    "house" := "#27ae60",
    "villa" := "#f39c12",
    "condo" := "#9b59b6"
  ]

  const Icons: map<string, string> := map[
    "apartment" := "\U{1F3E2}",
    "hotel" := "\U{1F3E8}",
    "house" := "\U{1F3E0}",
    "villa" := "\U{1F3D6}\U{FE0F}",
    "condo" := "\U{1F3EC}"
  ]

  /** `colors[type] || '#95a5a6'`: the fallback marks exactly the types
      missing from the table, and the known types are told apart. */
  function TypeColor(t: string): (color: string)
    ensures color == DefaultColor <==> t !in Colors
    ensures forall u :: u in Colors && u != t ==> Colors[u] != color
  {
    if t in Colors then Colors[t] else DefaultColor
  }

  /** `icons[type] || '🏠'`: the fallback is the house icon, so an unknown
      type is drawn exactly like a house. */
  function TypeIcon(t: string): (icon: string)
    ensures icon == DefaultIcon <==> t !in Icons || t == "house"
    ensures t in Icons && t != "house" ==> forall u :: u in Icons && u != t ==> Icons[u] != icon
  {
    if t in Icons then Icons[t] else DefaultIcon
  }

  /** Both tables cover the same five types. */
  lemma SameTypes()
    ensures Colors.Keys == Icons.Keys
    ensures |Colors.Keys| == 5
  {
    assert Colors.Keys == {"apartment", "hotel", "house", "villa", "condo"};
  }
}
