/** The scan as a program: what the scanner object answers about a snapshot. */
module Verdict {
  import opened Octets
  import opened Records
  import opened SessionMachine
  import opened Adoption
  import opened ScannerObject
  import opened CrossRow
  import opened CrossRowLaws
  import opened CrossRowSpec

  /**
   Runs the scanner over a snapshot, pausing wherever the budgets say. It adopts exactly what
   is sound in the mode: profile, rows and duties.
   */
  method ScanSnapshot(h: Hash, binding: Octets, mode: int, rows: seq<Row>, budgets: seq<int>) returns (adopted: bool)
    requires 1 <= mode <= 20 && TotalBudget(budgets) > |rows|
    ensures adopted <==> SoundIn(h, binding, mode, rows)
  {
    hide SoundIn, Run, Adopted, CrossRowEnv, ScanCalls;
    AdoptedIffSound(h, binding, mode, rows, budgets);
    var env := CrossRowEnv(h, binding, [], map[]);
    var scanner := new Scanner(env, rows);
    var calls := ScanCalls(true, mode, budgets);
    var halted, statuses := scanner.RunCalls(calls);
    return Adopted(calls, if halted then Halted else Ran(scanner.View(), statuses));
  }
}
