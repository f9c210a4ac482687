/** The section object (src/section.hpp, src/section.cpp): a growing buffer, flags, and labels not yet bound. */
module Sections {
  import opened Words
  import opened Results
  import opened Items
  import opened State
  import S = State

  class Section {
    const name: string
    const index: nat
    var output: seq<byte>
    var code: bool
    var data: bool
    var resv: bool
    var execonly: bool
    var readonly: bool
    var based: bool
    var base: u128
    var queue: seq<string>

    constructor (name: string, index: nat)
      ensures this.name == name && this.index == index
      ensures Value() == EmptySection(name)
    {
      this.name, this.index := name, index;
      output, queue, base := [], [], 0;
      code, data, resv, execonly, readonly, based := false, false, false, false, false, false;
    }

    /** What the section holds, as a value. */
    function Value(): SectionValue
      reads this
    {
      SectionValue(name, output, code, data, resv, execonly, readonly, based, base, queue)
    }

    /** `vector::resize`: zeros are added, or the end is cut off; beyond the largest vector it throws. */
    method ResizeTo(size: nat) returns (ok: bool)
      modifies this`output
      ensures ok <==> size <= MAX_SIZE
      ensures ok ==> |output| == size
      ensures ok ==> forall i :: 0 <= i < size ==> output[i] == if i < old(|output|) then old(output[i]) else 0
      ensures !ok ==> output == old(output)
    {
      if size > MAX_SIZE {
        return false;
      }
      output := if size <= |output| then output[..size] else output + Repeat(size - |output|);
      return true;
    }

    method AddOutput(kind: OutputType, bytes: seq<byte>) returns (ok: bool)
      modifies this`output, this`code, this`data
      ensures ok <==> Append(old(Value()), kind, bytes).Ok?
      ensures ok ==> Value() == Append(old(Value()), kind, bytes).value
    {
      if |output| + |bytes| > MAX_SIZE {
        return false;
      }
      output := output + bytes;
      match kind {
        case CodeOutput => code := true;
        case DataOutput => data := true;
      }
      return true;
    }

    method Allocate(count: u64) returns (ok: bool)
      modifies this`output, this`resv
      ensures ok <==> S.Allocate(old(Value()), count).Ok?
      ensures ok ==> Value() == S.Allocate(old(Value()), count).value
    {
      var newSize := |output| + count;
      ok := ResizeTo(newSize % 0x1_0000_0000_0000_0000);
      if ok {
        resv := true;
        assert output == Resize(old(output), ReservedSize(old(|output|), count)).value;
      }
    }

    method Align(alignment: u64) returns (ok: bool)
      requires |output| <= MAX_SIZE
      modifies this`output
      ensures ok <==> AlignSection(old(Value()), alignment).Ok?
      ensures ok ==> Value() == AlignSection(old(Value()), alignment).value
    {
      var newSize := AlignedSize(|output|, alignment);
      ok := true;
      if |output| != newSize {
        ok := ResizeTo(newSize);
      } else {
        assert output[..newSize] == output;
      }
      if ok {
        assert output == Resize(old(output), newSize).value;
      }
    }

    method AddLabelSoon(symbol: string)
      modifies this`queue
      ensures Value() == old(Value()).(queue := old(queue) + [symbol])
    {
      queue := queue + [symbol];
    }

    method MakeExecOnly()
      modifies this`execonly
      ensures Value() == old(Value()).(execonly := true)
    {
      execonly := true;
    }

    method MakeReadOnly()
      modifies this`readonly
      ensures Value() == old(Value()).(readonly := true)
    {
      readonly := true;
    }

    method SetBaseAddress(address: u128)
      modifies this`base, this`based
      ensures Value() == old(Value()).(base := address, based := true)
    {
      base, based := address, true;
    }
  }
}
