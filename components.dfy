/** The electrical part a tile carries. */
module Components {
  import opened Wrappers

  datatype Component = Source | Hotspot | Lamp | Empty

  datatype ComponentError = UnknownDiminutive(text: string)

  /** Whether a tile carrying `c` may be turned by the player: every component but a source. */
  predicate CanRotate(c: Component) {
    match c
    case Source => false
    case Hotspot => true
    case Lamp => true
    case Empty => true
  }

  /** The one-character code of the component in a level file. */
  function Diminutive(c: Component): (d: string)
    ensures |d| == 1
  {
    match c
    case Source => "S"
    case Hotspot => "W"
    case Lamp => "L"
    case Empty => "."
  }

  /** The component a level-file code names; any other text is refused. */
  function FromDiminutive(s: string): (r: Result<Component, ComponentError>)
    ensures r.Success? ==> Diminutive(r.value) == s
    ensures r.Failure? ==> r.error == UnknownDiminutive(s)
  {
    if s == "S" then Success(Source)
    else if s == "W" then Success(Hotspot)
    else if s == "L" then Success(Lamp)
    else if s == "." then Success(Empty)
    else Failure(UnknownDiminutive(s))
  }

  /** Every component is read back from its own code, so no two components share one. */
  lemma FromDiminutiveOfDiminutive(c: Component)
    ensures FromDiminutive(Diminutive(c)) == Success(c)
  {
  }

  /** Only a source is fixed in place. */
  lemma OnlySourceIsFixed(c: Component)
    ensures !CanRotate(c) <==> c == Source
  {
  }
}
