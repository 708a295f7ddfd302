/** The deletion guard of an upsert run. */
module Guards {

  /** Where an attachment `parent!name` belongs: the text before the first `!`. */
  function Parent(source: string): string {
    if source == [] || source[0] == '!' then [] else [source[0]] + Parent(source[1..])
  }

  /** `check_vanished_deletion`: `seen` and `state` are sources, `ratio` is max_delete_ratio. */
  predicate Allows(seen: set<string>, state: set<string>, ratio: real, emptyGuard: bool, force: bool) {
    var vanished := state - seen;
    if vanished == {} then true
    else if emptyGuard && seen == {} && state != {} then false
    else
      var share := |vanished| as real / (if |state| < 1 then 1 else |state|) as real;
      !(share > ratio && !force)
  }

  /** The sources an allowed deletion phase removes. */
  function Gone(seen: set<string>, state: set<string>): set<string> {
    set s | s in state - seen && Parent(s) !in seen
  }
}
