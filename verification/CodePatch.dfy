/** Reversible writes into live code: `write_code`, `Patch`, `PointerHook` and `InlineHook`
    over a byte memory with page protections, every operating-system call free to fail. */
module CodePatch {
  import opened Bytes
  import opened SiteProtocol

  const PAGE: nat := 4096
  const EXECUTE_READWRITE: nat := 0x40
  const EXECUTE_READ: nat := 0x20

  /** `SetProtection` as VirtualProtect does it: every page holding a byte of the range. */
  function Protected(prot: seq<nat>, at: nat, n: nat, value: nat): (r: seq<nat>)
    requires n > 0
    ensures |r| == |prot|
    ensures forall i | 0 <= i < |prot| :: r[i] == if at / PAGE <= i <= (at + n - 1) / PAGE then value else prot[i]
  {
    seq(|prot|, i requires 0 <= i < |prot| => if at / PAGE <= i <= (at + n - 1) / PAGE then value else prot[i])
  }

  /** All pages of a range carry one protection. */
  ghost predicate Uniform(prot: seq<nat>, at: nat, n: nat, value: nat)
    requires n > 0
  {
    forall i | at / PAGE <= i <= (at + n - 1) / PAGE && i < |prot| :: prot[i] == value
  }

  /** Two byte memories agree outside a window. */
  ghost predicate SameOutside(a: seq<byte>, b: seq<byte>, at: nat, n: nat) {
    && |a| == |b| && at + n <= |a|
    && a[..at] == b[..at] && a[at + n..] == b[at + n..]
  }

  ghost predicate SamePagesOutside(a: seq<nat>, b: seq<nat>, at: nat, n: nat)
    requires n > 0
  {
    |a| == |b| && forall i | 0 <= i < |a| && !(at / PAGE <= i <= (at + n - 1) / PAGE) :: a[i] == b[i]
  }

  /** The process memory. No caller but the hooks writes the patched windows. `faulty` lets any
      operating-system call on it fail. */
  class Memory {
    var bytes: seq<byte>
    var prot: seq<nat>
    const faulty: bool

    ghost predicate Valid()
      reads this
    {
      |prot| * PAGE >= |bytes|
    }

    ghost predicate InRange(at: nat, n: nat)
      reads this
    {
      n > 0 && at + n <= |bytes|
    }

    method VirtualProtect(at: nat, n: nat, value: nat) returns (ok: bool, previous: nat)
      requires Valid() && InRange(at, n)
      modifies this`prot
      ensures Valid()
      ensures ok ==> prot == Protected(old(prot), at, n, value) && previous == old(prot[at / PAGE])
      ensures !ok ==> faulty && prot == old(prot)
    {
      previous := 0;
      ok := Call();
      if ok {
        previous := prot[at / PAGE];
        prot := Protected(prot, at, n, value);
      }
    }

    /** Some other call into the system. */
    method Call() returns (ok: bool)
      ensures !ok ==> faulty
    {
      var failed: bool := *;
      ok := !(faulty && failed);
    }

    method FlushInstructionCache() returns (ok: bool)
      ensures !ok ==> faulty
    {
      ok := Call();
    }

    /** The raw copy. It may leave anything in the window: the code verifies what it wrote. */
    method Copy(at: nat, data: seq<byte>)
      requires InRange(at, |data|)
      modifies this`bytes
      ensures SameOutside(bytes, old(bytes), at, |data|)
      ensures !faulty ==> bytes[at..at + |data|] == data
    {
      var landed: seq<byte> := *;
      if !faulty || |landed| != |data| {
        landed := data;
      }
      bytes := bytes[..at] + landed + bytes[at + |data|..];
    }
  }

  /** `write_code`: open the page, copy, flush, close the page, verify. The first write
      remembers the protection it found. */
  method WriteCode(os: Memory, at: nat, data: seq<byte>, remembered: Option<nat>)
    returns (ok: bool, protection: Option<nat>)
    requires os.Valid() && os.InRange(at, |data|)
    modifies os
    ensures os.Valid()
    ensures SameOutside(os.bytes, old(os.bytes), at, |data|)
    ensures SamePagesOutside(os.prot, old(os.prot), at, |data|)
    ensures remembered.Some? ==> protection == remembered
    ensures remembered.None? && protection.Some? ==> protection.value == old(os.prot[at / PAGE])
    ensures ok ==> os.bytes[at..at + |data|] == data
    ensures ok ==> protection.Some? && Uniform(os.prot, at, |data|, protection.value)
    ensures protection.None? ==> !ok && os.bytes == old(os.bytes) && os.prot == old(os.prot)
    ensures ok && remembered.None? ==>
      (os.prot == old(os.prot) <==> Uniform(old(os.prot), at, |data|, old(os.prot)[at / PAGE]))
    ensures !ok ==> os.faulty
  {
    protection := remembered;
    var writable, found := os.VirtualProtect(at, |data|, EXECUTE_READWRITE);
    if !writable {
      return false, protection;
    }
    if protection.None? {
      protection := Some(found);
    }
    os.Copy(at, data);
    var flushed := os.FlushInstructionCache();
    var closed, _ := os.VirtualProtect(at, |data|, protection.value);
    ok := flushed && closed && os.bytes[at..at + |data|] == data;
    if ok && remembered.None? {
      ProtectionRestoredIff(old(os.prot), os.prot, at, |data|);
    }
  }

  /** Whether every other thread could be stopped for a write (module `StopTheWorld`). */
  method SuspendOthers(os: Memory) returns (ok: bool)
    ensures !ok ==> os.faulty
  {
    ok := os.Call();
  }

  datatype InstallResult = Installed | CleanFailure | DirtyFailure

  class Patch {
    const os: Memory
    const address: nat
    const original: seq<byte>
    const replacement: seq<byte>
    var originalProtection: Option<nat>
    var tainted: bool

    ghost predicate Valid()
      reads this, os
    {
      && os.Valid() && os.InRange(address, |original|)
      && |original| == |replacement|
    }

    function Bytes(): seq<byte>
      requires Valid()
      reads this, os
    {
      os.bytes[address..address + |original|]
    }

    /** `Patch::state`: the original is compared first. */
    function State(): (c: Contents)
      requires Valid()
      reads this, os
      ensures c == Original <==> Bytes() == original
      ensures c == Replacement ==> Bytes() == replacement
      ensures c == Unknown <==> Bytes() != original && Bytes() != replacement
    {
      if Bytes() == original then Original
      else if Bytes() == replacement then Replacement
      else Unknown
    }

    function View(): Site
      requires Valid()
      reads this, os
    {
      Site(State(), tainted)
    }

    /** While nothing is in doubt, the pages are back at the protection seen by the first write. */
    ghost predicate PagesClosed()
      requires Valid()
      reads this, os
    {
      !tainted && originalProtection.Some? ==> Uniform(os.prot, address, |original|, originalProtection.value)
    }

    /** What no operation of this patch changes. */
    twostate predicate Framed()
      requires old(Valid()) && Valid()
      reads this, os
    {
      && SameOutside(os.bytes, old(os.bytes), address, |original|)
      && SamePagesOutside(os.prot, old(os.prot), address, |original|)
      && (old(originalProtection).Some? ==> originalProtection == old(originalProtection))
      && (old(originalProtection).None? && originalProtection.Some?
          ==> originalProtection.value == old(os.prot[address / PAGE]))
      && (originalProtection.None? ==> os.bytes == old(os.bytes) && os.prot == old(os.prot))
    }

    constructor (os: Memory, address: nat, expected: seq<byte>, replacement: seq<byte>)
      requires os.Valid() && os.InRange(address, |expected|)
      requires |expected| == |replacement|
      ensures Valid() && originalProtection == None && !tainted
      ensures this.os == os && this.address == address
      ensures this.original == expected && this.replacement == replacement
    {
      this.os := os;
      this.address := address;
      this.original := expected;
      this.replacement := replacement;
      this.originalProtection := None;
      this.tainted := false;
    }

    /** `Patch::prepare` never writes, and refuses unless the live bytes are the expected ones. */
    static method Prepare(os: Memory, address: nat, expected: seq<byte>, replacement: seq<byte>)
      returns (patch: Patch?)
      requires os.Valid() && (|expected| > 0 ==> os.InRange(address, |expected|))
      ensures patch != null <==>
        |expected| == |replacement| > 0 && os.bytes[address..address + |expected|] == expected
      ensures patch != null ==> fresh(patch) && patch.Valid() && patch.View() == PRISTINE
      ensures patch != null ==> patch.originalProtection == None
      ensures patch != null ==> patch.os == os && patch.address == address
      ensures patch != null ==> patch.original == expected && patch.replacement == replacement
    {
      if |expected| != |replacement| || |expected| == 0 {
        return null;
      }
      if os.bytes[address..address + |expected|] != expected {
        return null;
      }
      patch := new Patch(os, address, expected, replacement);
    }

    method ForceOriginal() returns (ok: bool)
      requires Valid()
      modifies this, os
      ensures Valid() && Framed() && ForcedOriginal(ok, View())
      ensures ok ==> PagesClosed() && originalProtection.Some?
      ensures !ok ==> os.faulty
    {
      tainted := true;
      var written;
      written, originalProtection := WriteCode(os, address, original, originalProtection);
      ok := written && State() == Original;
      if ok {
        tainted := false;
      }
    }

    method Restore() returns (ok: bool)
      requires Valid()
      modifies this, os
      ensures Valid() && Framed() && Restored(old(View()), ok, View())
      ensures old(PagesClosed()) ==> PagesClosed()
      ensures ok ==> Bytes() == original && !tainted
      ensures !ok ==> os.faulty || old(View()) == Site(Unknown, false)
      ensures !old(tainted) && old(State()) != Replacement ==> os.bytes == old(os.bytes) && os.prot == old(os.prot)
    {
      match State() {
        case Original =>
          if !tainted {
            return true;
          }
        case Unknown =>
          if !tainted {
            return false;
          }
        case Replacement =>
      }
      var stopped := SuspendOthers(os);
      if !stopped {
        return false;
      }
      ok := ForceOriginal();
    }

    method Apply() returns (ok: bool)
      requires Valid()
      modifies this, os
      ensures Valid() && Framed()
      ensures original != replacement ==> PatchApplied(old(View()), ok, View())
      ensures old(PagesClosed()) ==> PagesClosed()
      ensures ok ==> Bytes() == replacement && !tainted
      ensures !ok ==> os.faulty || old(View()) == Site(Unknown, false)
      ensures old(Settled(View())) ==> Settled(View())
      ensures !old(tainted) && old(State()) != Original ==> os.bytes == old(os.bytes) && os.prot == old(os.prot)
    {
      if tainted {
        var restored := Restore();
        if !restored {
          return false;
        }
      }
      match State() {
        case Replacement => return true;
        case Unknown => return false;
        case Original =>
      }
      var stopped := SuspendOthers(os);
      if !stopped {
        return false;
      }
      tainted := true;
      var written;
      written, originalProtection := WriteCode(os, address, replacement, originalProtection);
      if written {
        tainted := false;
        return true;
      }
      var _ := ForceOriginal();
      return false;
    }

    /** `Patch::install`: a failed apply is undone, and only a proven undo is reported clean. */
    static method Install(os: Memory, address: nat, expected: seq<byte>, replacement: seq<byte>)
      returns (result: InstallResult, patch: Patch?)
      requires os.Valid() && (|expected| > 0 ==> os.InRange(address, |expected|))
      modifies os
      ensures os.Valid() && |os.bytes| == |old(os.bytes)|
      ensures result.Installed? <==> patch != null
      ensures patch != null ==> fresh(patch) && patch.Valid() && patch.PagesClosed()
      ensures patch != null ==> patch.os == os && patch.address == address
      ensures patch != null ==> patch.original == expected && patch.replacement == replacement
      ensures patch != null ==> patch.Bytes() == replacement && !patch.tainted
      ensures patch != null ==> SameOutside(os.bytes, old(os.bytes), address, |expected|)
      ensures result.CleanFailure? ==> os.bytes == old(os.bytes)
      ensures |expected| != |replacement| || |expected| == 0 ==> result.CleanFailure?
      ensures |expected| > 0 && old(os.bytes[address..address + |expected|]) != expected ==> result.CleanFailure?
      ensures result.DirtyFailure? ==> |expected| > 0 && SameOutside(os.bytes, old(os.bytes), address, |expected|)
      ensures !os.faulty && result.CleanFailure? ==>
        |expected| != |replacement| || |expected| == 0 || old(os.bytes[address..address + |expected|]) != expected
      ensures !os.faulty ==> !result.DirtyFailure?
    {
      var p := Prepare(os, address, expected, replacement);
      if p == null {
        return CleanFailure, null;
      }
      var applied := p.Apply();
      if applied {
        return Installed, p;
      }
      var undone := p.Restore();
      if undone && !p.tainted && p.State() == Original {
        assert os.bytes == old(os.bytes) by {
          WindowSplit(os.bytes, address, |expected|);
          WindowSplit(old(os.bytes), address, |expected|);
        }
        return CleanFailure, null;
      }
      return DirtyFailure, null;
    }

    /** Any history of applies and restores of a prepared patch, with any failures. */
    method Drive(history: seq<Op>) returns (outcomes: seq<bool>)
      requires Valid() && View() == PRISTINE && originalProtection == None
      modifies this, os
      ensures Valid() && Framed() && |outcomes| == |history|
      ensures Settled(View()) && PagesClosed()
      ensures history != [] && outcomes[|history| - 1] ==>
        !tainted && Bytes() == if history[|history| - 1] == Op.Apply then replacement else original
    {
      outcomes := [];
      for i := 0 to |history|
        invariant Valid() && Framed() && |outcomes| == i
        invariant Settled(View()) && PagesClosed()
        invariant i > 0 && outcomes[i - 1] ==>
          !tainted && Bytes() == if history[i - 1] == Op.Apply then replacement else original
      {
        var ok;
        if history[i] == Op.Apply {
          ok := Apply();
        } else {
          ok := Restore();
        }
        outcomes := outcomes + [ok];
      }
    }
  }

  /** Closing the window at the first page's old protection puts every page back exactly when
      the window did not straddle pages of different protection. */
  lemma ProtectionRestoredIff(before: seq<nat>, after: seq<nat>, at: nat, n: nat)
    requires n > 0 && (at + n - 1) / PAGE < |before|
    requires SamePagesOutside(after, before, at, n) && Uniform(after, at, n, before[at / PAGE])
    ensures after == before <==> Uniform(before, at, n, before[at / PAGE])
  {
    if Uniform(before, at, n, before[at / PAGE]) {
      forall i | 0 <= i < |after| ensures after[i] == before[i] {
      }
    }
  }

  /** Opening and closing a window that straddles two kinds of page leaves the others changed. */
  lemma StraddlingWindowChanges(before: seq<nat>, at: nat, n: nat, page: nat)
    requires n > 0 && at / PAGE <= page <= (at + n - 1) / PAGE < |before| && before[page] != before[at / PAGE]
    ensures var open := Protected(before, at, n, EXECUTE_READWRITE);
      var closed := Protected(open, at, n, before[at / PAGE]);
      closed[page] == before[at / PAGE] && closed != before
  {
  }

  lemma StraddlingWindowExists()
    ensures var before := [EXECUTE_READ, EXECUTE_READWRITE];
      Protected(Protected(before, PAGE - 1, 2, EXECUTE_READWRITE), PAGE - 1, 2, EXECUTE_READ)
        == [EXECUTE_READ, EXECUTE_READ]
  {
    StraddlingWindowChanges([EXECUTE_READ, EXECUTE_READWRITE], PAGE - 1, 2, 1);
  }

  lemma WindowSplit(s: seq<byte>, at: nat, n: nat)
    requires at + n <= |s|
    ensures s == s[..at] + s[at..at + n] + s[at + n..]
  {
  }

  const WORD: nat := 8

  /** A vtable slot redirected to a callback. Words are held as their in-memory bytes. */
  class PointerHook {
    const os: Memory
    const slot: nat
    const original: seq<byte>
    const replacement: seq<byte>
    var originalProtection: Option<nat>
    var tainted: bool

    ghost predicate Valid()
      reads this, os
    {
      && os.Valid() && os.InRange(slot, WORD)
      && |original| == |replacement| == WORD
    }

    function Current(): seq<byte>
      requires Valid()
      reads this, os
    {
      os.bytes[slot..slot + WORD]
    }

    function View(): Site
      requires Valid()
      reads this, os
    {
      Site(if Current() == original then Original
           else if Current() == replacement then Replacement else Unknown, tainted)
    }

    twostate predicate Framed()
      requires old(Valid()) && Valid()
      reads this, os
    {
      && SameOutside(os.bytes, old(os.bytes), slot, WORD)
      && SamePagesOutside(os.prot, old(os.prot), slot, WORD)
      && (old(originalProtection).Some? ==> originalProtection == old(originalProtection))
      && (old(originalProtection).None? && originalProtection.Some?
          ==> originalProtection.value == old(os.prot[slot / PAGE]))
    }

    ghost predicate PagesClosed()
      requires Valid()
      reads this, os
    {
      !tainted && originalProtection.Some? ==> Uniform(os.prot, slot, WORD, originalProtection.value)
    }

    constructor (os: Memory, slot: nat, expected: seq<byte>, replacement: seq<byte>)
      requires os.Valid() && os.InRange(slot, WORD)
      requires |expected| == |replacement| == WORD
      ensures Valid() && !tainted && originalProtection == None
      ensures this.os == os && this.slot == slot
      ensures this.original == expected && this.replacement == replacement
    {
      this.os := os;
      this.slot := slot;
      this.original := expected;
      this.replacement := replacement;
      this.originalProtection := None;
      this.tainted := false;
    }

    method ForceOriginal() returns (ok: bool)
      requires Valid()
      modifies this, os
      ensures Valid() && Framed() && ForcedOriginal(ok, View())
      ensures ok ==> PagesClosed()
      ensures !ok ==> os.faulty
    {
      tainted := true;
      var written;
      written, originalProtection := WriteCode(os, slot, original, originalProtection);
      ok := written && Current() == original;
      if ok {
        tainted := false;
      }
    }

    method Apply() returns (ok: bool)
      requires Valid()
      modifies this, os
      ensures Valid() && Framed()
      ensures original != replacement ==> PointerApplied(old(View()), ok, View())
      ensures ok ==> Current() == replacement && !tainted
      ensures original == replacement ==>
        os.bytes == old(os.bytes) && View() == old(View()) && (ok <==> View() == PRISTINE)
      ensures !ok ==> os.faulty || old(tainted) || old(View().contents) == Unknown
      ensures old(PagesClosed()) ==> PagesClosed()
      ensures old(tainted) || old(View().contents) != Original ==> os.bytes == old(os.bytes) && os.prot == old(os.prot)
    {
      if Current() == replacement && !tainted {
        return true;
      }
      if Current() != original || tainted {
        return false;
      }
      var stopped := SuspendOthers(os);
      if !stopped {
        return false;
      }
      tainted := true;
      var written;
      written, originalProtection := WriteCode(os, slot, replacement, originalProtection);
      if written {
        tainted := false;
        return true;
      }
      var _ := ForceOriginal();
      return false;
    }

    method Restore() returns (ok: bool)
      requires Valid()
      modifies this, os
      ensures Valid() && Framed() && Restored(old(View()), ok, View())
      ensures old(PagesClosed()) ==> PagesClosed()
      ensures ok ==> Current() == original && !tainted
      ensures !ok ==> os.faulty || old(View()) == Site(Unknown, false)
      ensures !old(tainted) && old(View().contents) != Replacement ==>
        os.bytes == old(os.bytes) && os.prot == old(os.prot)
    {
      if Current() == original && !tainted {
        return true;
      }
      if Current() != replacement && !tainted {
        return false;
      }
      var stopped := SuspendOthers(os);
      if !stopped {
        return false;
      }
      ok := ForceOriginal();
    }

    static method Install(os: Memory, slot: nat, expected: seq<byte>, replacement: seq<byte>)
      returns (result: InstallResult, hook: PointerHook?)
      requires os.Valid() && os.InRange(slot, WORD)
      requires |expected| == |replacement| == WORD
      modifies os
      ensures os.Valid() && SameOutside(os.bytes, old(os.bytes), slot, WORD)
      ensures result.Installed? <==> hook != null
      ensures hook != null ==> fresh(hook) && hook.Valid() && hook.PagesClosed()
      ensures hook != null ==> hook.Current() == replacement && !hook.tainted
      ensures hook != null && expected != replacement ==> hook.View() == APPLIED
      ensures hook != null ==> hook.os == os && hook.slot == slot
      ensures hook != null ==> hook.original == expected && hook.replacement == replacement
      ensures result.CleanFailure? ==> os.bytes == old(os.bytes)
      ensures slot % WORD != 0 || old(os.bytes[slot..slot + WORD]) != expected ==>
        result.CleanFailure? && os.prot == old(os.prot)
      ensures !os.faulty && slot % WORD == 0 && old(os.bytes[slot..slot + WORD]) == expected ==> result.Installed?
    {
      if slot % WORD != 0 || os.bytes[slot..slot + WORD] != expected {
        return CleanFailure, null;
      }
      var h := new PointerHook(os, slot, expected, replacement);
      var applied := h.Apply();
      if applied {
        return Installed, h;
      }
      var undone := h.Restore();
      if undone && !h.tainted && h.Current() == h.original {
        assert os.bytes == old(os.bytes) by {
          WindowSplit(os.bytes, slot, WORD);
          WindowSplit(old(os.bytes), slot, WORD);
        }
        return CleanFailure, null;
      }
      return DirtyFailure, null;
    }
  }

  const ABS_JUMP_LEN: nat := 14
  const NOP: byte := 0x90

  /** `jmp [rip+0]` followed by the eight-byte target. */
  function AbsoluteJump(target: nat): (code: seq<byte>)
    ensures |code| == ABS_JUMP_LEN
  {
    [0xff, 0x25, 0, 0, 0, 0] + LeBytes(target, 8)
  }

  /** Where the processor continues when it executes `code`, if that is an absolute jump. */
  function JumpTarget(code: seq<byte>): Option<nat> {
    if |code| >= ABS_JUMP_LEN && code[..6] == [0xff, 0x25, 0, 0, 0, 0]
    then Some(LeValue(code[6..14])) else None
  }

  lemma JumpRoundTrip(target: nat, rest: seq<byte>)
    requires target < Pow256(8)
    ensures JumpTarget(AbsoluteJump(target) + rest) == Some(target)
  {
    var code := AbsoluteJump(target) + rest;
    assert code[6..14] == LeBytes(target, 8);
    LeRoundTrip(target, 8);
  }

  /** The displaced bytes, and then a jump back. */
  lemma TrampolineReturns(displaced: seq<byte>, back: nat)
    requires back < Pow256(8)
    ensures var code := displaced + AbsoluteJump(back);
      code[..|displaced|] == displaced && JumpTarget(code[|displaced|..]) == Some(back)
  {
    var code := displaced + AbsoluteJump(back);
    JumpRoundTrip(back, []);
    assert AbsoluteJump(back) + [] == AbsoluteJump(back) == code[|displaced|..];
  }

  datatype Trampoline = Trampoline(address: nat, code: seq<byte>)

  /** The static the callback reads to find the original function. */
  class AddressCell {
    var value: nat
  }

  class InlineHook {
    const patch: Patch
    var trampoline: Option<Trampoline>

    constructor (patch: Patch, trampoline: Trampoline)
      ensures this.patch == patch && this.trampoline == Some(trampoline)
    {
      this.patch := patch;
      this.trampoline := Some(trampoline);
    }

    /** The entry is written, and a failed write undone, while the cell holds the trampoline: it is
        not modified here, so a callback that the new entry leads to never reads an empty cell. */
    static method PatchEntry(os: Memory, address: nat, expected: seq<byte>, entry: seq<byte>,
                             cell: AddressCell, trampoline: nat)
      returns (result: InstallResult, patch: Patch?)
      requires os.Valid() && os.InRange(address, |expected|) && |entry| == |expected|
      requires cell.value == trampoline != 0
      modifies os
      ensures os.Valid() && SameOutside(os.bytes, old(os.bytes), address, |expected|)
      ensures result.Installed? <==> patch != null
      ensures patch != null ==> fresh(patch) && patch.Valid() && patch.os == os && patch.address == address
      ensures patch != null ==> patch.original == expected && patch.replacement == entry
      ensures patch != null ==> patch.Bytes() == entry && !patch.tainted
      ensures result.CleanFailure? ==> os.bytes == old(os.bytes)
      ensures !os.faulty && old(os.bytes[address..address + |expected|]) == expected ==> result.Installed?
    {
      result, patch := Patch.Install(os, address, expected, entry);
    }

    /** The entry jumps to the callback, and the trampoline runs the displaced bytes and
        continues at the first byte after them. */
    static method Install(os: Memory, address: nat, expected: seq<byte>, callback: nat, cell: AddressCell)
      returns (result: InstallResult, hook: InlineHook?)
      requires os.Valid() && os.InRange(address, |expected|)
      requires address + |expected| < Pow256(8) && callback < Pow256(8)
      modifies os, cell
      ensures os.Valid()
      ensures result.Installed? <==> hook != null
      ensures hook != null ==> fresh(hook.patch) && hook.patch.Valid() && hook.patch.os == os
      ensures hook != null ==> hook.patch.address == address && hook.patch.original == expected
      ensures hook != null ==> hook.patch.Bytes() == hook.patch.replacement && !hook.patch.tainted
      ensures hook != null ==> JumpTarget(os.bytes[address..address + |expected|]) == Some(callback)
      ensures hook != null ==>
        && hook.trampoline.Some? && cell.value == hook.trampoline.value.address != 0
        && |hook.trampoline.value.code| == |expected| + ABS_JUMP_LEN
        && hook.trampoline.value.code[..|expected|] == expected
        && JumpTarget(hook.trampoline.value.code[|expected|..]) == Some(address + |expected|)
      ensures result.CleanFailure? ==> os.bytes == old(os.bytes) && (cell.value == 0 || cell.value == old(cell.value))
      ensures result.DirtyFailure? ==> cell.value != 0 && SameOutside(os.bytes, old(os.bytes), address, |expected|)
      ensures |expected| < ABS_JUMP_LEN ==> result.CleanFailure? && cell.value == old(cell.value)
      ensures !os.faulty && |expected| >= ABS_JUMP_LEN && old(os.bytes[address..address + |expected|]) == expected ==>
        result.Installed?
    {
      if |expected| < ABS_JUMP_LEN {
        return CleanFailure, null;
      }
      var reserved := os.Call();
      var block: int := *;
      if !reserved {
        return CleanFailure, null;
      }
      if block <= 0 {
        block := 1;
      }
      var code := expected + AbsoluteJump(address + |expected|);
      var flushed := os.FlushInstructionCache();
      var closed := os.Call();
      if !flushed || !closed {
        return CleanFailure, null;
      }
      cell.value := block;
      var padding := seq(|expected| - ABS_JUMP_LEN, _ => NOP);
      var entry := AbsoluteJump(callback) + padding;
      var patch;
      result, patch := PatchEntry(os, address, expected, entry, cell, block);
      if patch == null {
        if result.CleanFailure? {
          cell.value := 0;
        }
        return result, null;
      }
      hook := new InlineHook(patch, Trampoline(block, code));
      JumpRoundTrip(callback, padding);
      TrampolineReturns(expected, address + |expected|);
      assert os.bytes[address..address + |expected|] == entry;
    }

    /** The trampoline is freed only while the entry provably holds its original bytes. */
    method ReleaseTrampoline() returns (ok: bool)
      requires patch.Valid()
      modifies this
      ensures old(trampoline).None? ==> ok && trampoline.None?
      ensures old(trampoline).Some? && patch.View() != PRISTINE ==> !ok && trampoline == old(trampoline)
      ensures if ok then trampoline.None? else trampoline == old(trampoline)
      ensures !patch.os.faulty && patch.View() == PRISTINE ==> ok
    {
      if trampoline.None? {
        return true;
      }
      if patch.tainted || patch.State() != Original {
        return false;
      }
      ok := patch.os.Call();
      if ok {
        trampoline := None;
      }
    }
  }
}
