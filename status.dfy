/**
 * The device's status register and fault codes: the 26 named flags of the
 * status word in bit order (`AxisStatus`, and the identical `ProcessStatus`
 * of the older driver), the listing of the flags that are set, and the
 * names of the busy codes a `#` reply carries (`DriverStatus`).
 */
module Status {
  import opened Bits
  import opened Numerals

  /** The flag names, position i naming bit i. */
  const AxisStatusNames: seq<string> := [
    "ERROR", "HOME", "IN_MOTION", "IN_POSITION",
    "END_OF_PROGRAM", "IN_FORCE", "IN_SECTOR", "FORCE_IN_SECTOR",
    "INVERTER_VOLTAGE", "END_OF_GANTRY_INIT", "LIMIT_SWITCH_LEFT", "LIMIT_SWITCH_RIGHT",
    "EMERGENCY_EXIT_1_REMAIN_POWER_ON", "EMERGENCY_EXT_POWER_OFF", "COGGING_REFERENCE_DRIVE_ACTIVE", "I_FORCE_LIMIT_REACHED",
    "STO_PRIMED_OR_HIT", "SS1_PRIMED_OR_HIT", "SS2_PRIMED", "SS2_HIT",
    "SLS_PRIMED", "SLS_SPEED_HIT", "SLS_POSITION_HIT", "WARNING",
    "INFORMATION", "PHASING_DONE"]

  const FlagCount: nat := 26

  const ERROR: nat := 0
  const HOME: nat := 1
  const IN_MOTION: nat := 2
  const IN_POSITION: nat := 3
  const PHASING_DONE: nat := 25

  /** The names of the set flags among the first `count` positions, in bit order. */
  function FlagsBelow(word: nat, count: nat): (names: seq<string>)
    requires count <= FlagCount
    ensures |names| <= count
  {
    if count == 0 then []
    else FlagsBelow(word, count - 1) + (if Test(word, count - 1) then [AxisStatusNames[count - 1]] else [])
  }

  /** The names of every set flag, in bit order (the enumeration's order). */
  function ActiveFlags(word: nat): seq<string>
  {
    FlagsBelow(word, FlagCount)
  }

  /** `"\r\n\t" + name` for each name, concatenated. */
  function FlagLines(names: seq<string>): string
  {
    if names == [] then "" else "\r\n\t" + names[0] + FlagLines(names[1..])
  }

  /** One more position appends that flag's name when its bit is set. */
  lemma FlagsBelowNext(word: nat, i: nat)
    requires i < FlagCount
    ensures FlagsBelow(word, i + 1) == FlagsBelow(word, i) + (if Test(word, i) then [AxisStatusNames[i]] else [])
  {
  }

  /** Listing lines for two runs of names is the listing of each, one after the other. */
  lemma {:induction false} FlagLinesAppend(a: seq<string>, b: seq<string>)
    ensures FlagLines(a + b) == FlagLines(a) + FlagLines(b)
    decreases |a|
  {
    if a == [] {
      assert a + b == b;
    } else {
      assert (a + b)[1..] == a[1..] + b;
      FlagLinesAppend(a[1..], b);
    }
  }

  /** One more position adds the line of that flag when its bit is set. */
  lemma FlagLinesStep(word: nat, i: nat)
    requires i < FlagCount
    ensures FlagLines(FlagsBelow(word, i + 1)) ==
      FlagLines(FlagsBelow(word, i)) + (if Test(word, i) then "\r\n\t" + AxisStatusNames[i] else "")
  {
    var listed := FlagsBelow(word, i);
    if Test(word, i) {
      FlagLinesAppend(listed, [AxisStatusNames[i]]);
    } else {
      assert listed + [] == listed;
    }
  }

  /** No two flags share a name. */
  lemma NamesDistinct()
    ensures forall i, j :: 0 <= i < j < FlagCount ==> AxisStatusNames[i] != AxisStatusNames[j]
  {
  }

  /** Two different positions have different names. */
  lemma NameDistinct(i: nat, j: nat)
    requires i < FlagCount && j < FlagCount && i != j
    ensures AxisStatusNames[i] != AxisStatusNames[j]
  {
    NamesDistinct();
  }

  /** The names at the set positions among the first `count`, for any list of names. */
  function Select(word: nat, count: nat, names: seq<string>): seq<string>
    requires count <= |names|
  {
    if count == 0 then [] else Select(word, count - 1, names) + (if Test(word, count - 1) then [names[count - 1]] else [])
  }

  /** The flag listing is the selection from the flag names. */
  lemma {:induction false} FlagsBelowSelect(word: nat, count: nat)
    requires count <= FlagCount
    ensures FlagsBelow(word, count) == Select(word, count, AxisStatusNames)
    decreases count
  {
    if count > 0 {
      FlagsBelowSelect(word, count - 1);
    }
  }

  /** A name that occurs once is selected exactly when its position is among the first `count` and set. */
  lemma {:induction false} SelectExact(word: nat, count: nat, i: nat, names: seq<string>)
    requires count <= |names| && i < |names|
    requires forall j :: 0 <= j < |names| && j != i ==> names[j] != names[i]
    ensures names[i] in Select(word, count, names) <==> i < count && Test(word, i)
    decreases count
  {
    if count > 0 {
      SelectExact(word, count - 1, i, names);
      var before := Select(word, count - 1, names);
      if Test(word, count - 1) {
        assert Select(word, count, names) == before + [names[count - 1]];
        if i != count - 1 {
          assert names[count - 1] != names[i];
        }
      } else {
        assert Select(word, count, names) == before;
      }
    }
  }

  /** Among the first `count` positions, a flag's name is listed exactly when it is one of them and set. */
  lemma FlagsBelowExact(word: nat, count: nat, i: nat)
    requires count <= FlagCount && i < FlagCount
    ensures AxisStatusNames[i] in FlagsBelow(word, count) <==> i < count && Test(word, i)
  {
    forall j | 0 <= j < FlagCount && j != i
      ensures AxisStatusNames[j] != AxisStatusNames[i]
    {
      NameDistinct(j, i);
    }
    FlagsBelowSelect(word, count);
    SelectExact(word, count, i, AxisStatusNames);
  }

  /** A flag's name is listed exactly when its bit is set. */
  lemma ActiveFlagsExact(word: nat)
    ensures forall i :: 0 <= i < FlagCount ==> (AxisStatusNames[i] in ActiveFlags(word) <==> Test(word, i))
    ensures |ActiveFlags(word)| <= FlagCount
  {
    forall i | 0 <= i < FlagCount
      ensures AxisStatusNames[i] in ActiveFlags(word) <==> Test(word, i)
    {
      FlagsBelowExact(word, FlagCount, i);
    }
  }

  /** `DriverStatus.ToString()`: the name of a defined code, the number otherwise. */
  function DriverStatusName(code: int): string
  {
    if code == 0 then "UNKNOWN_ERROR"
    else if code == 1 then "ERROR_IN_QUEUE"
    else if code == 3 then "DRIVE_IS_ACTIVE"
    else if code == 5 then "PROGRAM_IS_ACTIVE"
    else if code == 13 then "EE1_IN_QUEUE"
    else if code == 14 then "EE_IN_QUEUE"
    else if code == 15 then "FORCE_CALIBRATION_ACTIVE"
    else if code == 34 then "ROTARY_REFERENCE_ACTIVE"
    else if code == 36 then "GANTRY_REFERENCE_ACTIVE"
    else if code == 38 then "REFERENCE_ACTIVE"
    else if code == 40 then "COMMAND_AT_ACTIVE_BUS_MODULE_NOT_ALLOWED"
    else if code == 47 then "FAULT_REACTION_ACTIVE"
    else if code == 65 then "VALUE_OF_PARAMETER_NOT_VALID"
    else if code == 66 then "COMMAND_NOT_COMPLETED_CORRECTLY"
    else Decimal(code)
  }

  /** The busy codes that have a name. */
  predicate IsNamedDriverStatus(code: int)
  {
    code in {0, 1, 3, 5, 13, 14, 15, 34, 36, 38, 40, 47, 65, 66}
  }

  /** A code outside the enumeration is shown as its number, never as UNKNOWN_ERROR. */
  lemma DriverStatusNameShape(code: int)
    ensures !IsNamedDriverStatus(code) ==> DriverStatusName(code) == Decimal(code)
    ensures DriverStatusName(code) == "UNKNOWN_ERROR" <==> code == 0
  {
    if !IsNamedDriverStatus(code) {
      DecimalChars(code);
      assert Decimal(code)[0] != 'U';
    }
  }
}
