/** The text field in memory that the composer is proved against (client/internal/input/fake.go). */
module FakePlatformModel {

  /** Which calls fail, by number; a call that fails has no effect. */
  type Faults = nat -> bool

  datatype Platform = Platform(committed: string, marked: string, composing: bool, calls: nat) {
    /** What the user sees. */
    function Document(): string {
      committed + marked
    }
  }

  /** A call either fails on request, or runs into the platform's own objection, or takes effect. */
  function Called(faults: Faults, p: Platform, allowed: bool, effect: Platform): (Platform, bool) {
    if faults(p.calls) || !allowed then (p.(calls := p.calls + 1), false)
    else (effect.(calls := p.calls + 1), true)
  }

  function AfterBegin(faults: Faults, p: Platform): (Platform, bool) {
    Called(faults, p, !p.composing, p.(composing := true))
  }

  function AfterMark(faults: Faults, p: Platform, text: string): (Platform, bool) {
    Called(faults, p, p.composing, p.(marked := text))
  }

  function AfterCommit(faults: Faults, p: Platform, text: string): (Platform, bool) {
    Called(faults, p, p.composing, p.(committed := p.committed + text))
  }

  /** Marked text that survives to the end of the composition becomes real text. */
  function AfterEnd(faults: Faults, p: Platform): (Platform, bool) {
    Called(faults, p, true,
           if p.composing then p.(committed := p.committed + p.marked, marked := "", composing := false) else p)
  }

  function AfterCancel(faults: Faults, p: Platform): (Platform, bool) {
    Called(faults, p, true, p.(marked := "", composing := false))
  }

  class FakePlatform {
    const faults: Faults
    var committed: string
    var marked: string
    var composing: bool
    var calls: nat

    ghost function Model(): Platform
      reads this
    {
      Platform(committed, marked, composing, calls)
    }

    constructor (faults: Faults)
      ensures Model() == Platform("", "", false, 0) && this.faults == faults
    {
      this.faults := faults;
      committed, marked, composing, calls := "", "", false, 0;
    }

    method BeginComposition() returns (ok: bool)
      modifies this
      ensures (Model(), ok) == AfterBegin(faults, old(Model()))
    {
      calls := calls + 1;
      if faults(calls - 1) || composing {
        return false;
      }
      composing := true;
      return true;
    }

    method SetMarkedText(text: string) returns (ok: bool)
      modifies this
      ensures (Model(), ok) == AfterMark(faults, old(Model()), text)
    {
      calls := calls + 1;
      if faults(calls - 1) || !composing {
        return false;
      }
      marked := text;
      return true;
    }

    method CommitText(text: string) returns (ok: bool)
      modifies this
      ensures (Model(), ok) == AfterCommit(faults, old(Model()), text)
    {
      calls := calls + 1;
      if faults(calls - 1) || !composing {
        return false;
      }
      committed := committed + text;
      return true;
    }

    method EndComposition() returns (ok: bool)
      modifies this
      ensures (Model(), ok) == AfterEnd(faults, old(Model()))
    {
      calls := calls + 1;
      if faults(calls - 1) {
        return false;
      }
      if composing {
        committed := committed + marked;
        marked := "";
        composing := false;
      }
      return true;
    }

    method CancelComposition() returns (ok: bool)
      modifies this
      ensures (Model(), ok) == AfterCancel(faults, old(Model()))
    {
      calls := calls + 1;
      if faults(calls - 1) {
        return false;
      }
      marked := "";
      composing := false;
      return true;
    }
  }
}
