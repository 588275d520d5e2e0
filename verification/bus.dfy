/**
 The I2C bus as the driver sees it. The transport itself is not modelled:
 a read returns the next register block from a fixed sequence of replies,
 and a write appends to a log of the bytes sent. A read with no reply left
 is the transport's failure, which the driver never catches.
 */
module I2cBus {
  import opened Bits
  import opened RegisterMap

  /** One `writeto_mem` call: one byte written to one register. */
  datatype Write = Write(register: nat, value: byte)

  datatype BusError = NoReply

  datatype Result<T> = Ok(value: T) | Err(error: BusError) {
    predicate IsFailure() {
      Err?
    }

    function PropagateFailure<U>(): Result<U>
      requires Err?
    {
      Err(error)
    }

    function Extract(): T
      requires Ok?
    {
      value
    }
  }

  /** The blocks the board will answer the next reads with, in order, and
      every write sent to it so far, oldest first. */
  datatype Bus = Bus(replies: seq<RegisterBlock>, log: seq<Write>)

  /** `readfrom_into`: fill the whole register block from the next reply. */
  function ReadFromInto(bus: Bus): (r: Result<(RegisterBlock, Bus)>)
    ensures r.Ok? <==> |bus.replies| > 0
    ensures r.Ok? ==> r.value.0 == bus.replies[0]
    ensures r.Ok? ==> r.value.1 == bus.(replies := bus.replies[1..])
  {
    if |bus.replies| == 0 then Err(NoReply)
    else Ok((bus.replies[0], bus.(replies := bus.replies[1..])))
  }

  /** `writeto_mem`: send one byte to one register. */
  function WriteToMem(bus: Bus, register: nat, value: byte): (r: Bus)
    ensures r.replies == bus.replies
    ensures r.log == bus.log + [Write(register, value)]
  {
    bus.(log := bus.log + [Write(register, value)])
  }

  /** The block a board answers with when it starts from `image` and keeps
      every write in `writes`, applied in order. Writes outside the block
      change nothing in it. */
  function Stored(image: RegisterBlock, writes: seq<Write>): RegisterBlock
    decreases |writes|
  {
    if writes == [] then image
    else
      var w := writes[0];
      var next: RegisterBlock := if w.register < RegisterCount then image[w.register := w.value] else image;
      Stored(next, writes[1..])
  }

  /** A register that a single write reaches holds that write's byte, and
      every other register keeps its value. */
  lemma StoredOne(image: RegisterBlock, w: Write, i: nat)
    requires i < RegisterCount
    ensures Stored(image, [w])[i] == if i == w.register then w.value else image[i]
  {
    assert [w][1..] == [];
  }

  /** With two writes to different registers, each register holds the byte
      written to it, whatever it held before. */
  lemma {:induction false} StoredTwo(image: RegisterBlock, w1: Write, w2: Write)
    requires w1.register < RegisterCount && w2.register < RegisterCount
    requires w1.register != w2.register
    ensures Stored(image, [w1, w2])[w1.register] == w1.value
    ensures Stored(image, [w1, w2])[w2.register] == w2.value
  {
    var next: RegisterBlock := image[w1.register := w1.value];
    assert [w1, w2][1..] == [w2];
    StoredOne(next, w2, w1.register);
    StoredOne(next, w2, w2.register);
  }
}
