/** The lookup the controller patches onto HTMLOptionsCollection: the index of the first
    option whose value is the given name. */
module OptionList {

  /** Counts up from 0 and returns at the first option whose value equals name, or -1 */
  method IndexOf(values: seq<string>, name: string) returns (index: int)
    ensures -1 <= index < |values|
    ensures index >= 0 ==> values[index] == name
    ensures index >= 0 ==> forall j :: 0 <= j < index ==> values[j] != name
    ensures index == -1 <==> forall j :: 0 <= j < |values| ==> values[j] != name
  {
    for i := 0 to |values|
      invariant forall j :: 0 <= j < i ==> values[j] != name
    {
      if values[i] == name {
        return i;
      }
    }
    return -1;
  }
}
