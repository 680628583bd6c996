/** Lines of the form KEY=VALUE. */
module EnvLines {

  /** The position of the first equals sign, or the length. */
  function EqualsAt(line: string): (k: nat)
    ensures k <= |line| && (forall i | 0 <= i < k :: line[i] != '=') && (k < |line| ==> line[k] == '=')
  {
    if line == "" || line[0] == '=' then 0 else 1 + EqualsAt(line[1..])
  }

  lemma EqualsAfter(key: string, value: string)
    requires '=' !in key
    ensures EqualsAt(key + "=" + value) == |key| && (key + "=" + value)[..|key|] == key
  {
    var line := key + "=" + value;
    assert line[|key|] == '=' && forall i | 0 <= i < |key| :: line[i] == key[i];
  }
}
