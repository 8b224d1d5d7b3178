/** Compressed 32-bit object references of the managed runtime
    (app/src/main/cpp/object_reference.h). A mirror pointer is a
    machine address (`int`, at least 0); a reference keeps only its low
    32 bits, negated in two's complement when references are poisoned. */
module ObjectReference {
  import opened Base

  /** The low 32 bits of a pointer: `static_cast<uint32_t>(uintptr_t)`. */
  function Truncate(p: nat): (r: u32)
    ensures p < TWO32 ==> r == p
  {
    p % TWO32
  }

  /** Unsigned 32-bit negation, the C++ `-x` on a `uint32_t`. */
  function Negate(x: u32): (r: u32)
    ensures (r + x) % TWO32 == 0
  {
    (TWO32 - x) % TWO32
  }

  /** PtrCompression::Compress. */
  function Compress(poison: bool, mirror: nat): (r: u32)
    ensures r == 0 <==> mirror % TWO32 == 0
  {
    var bits := Truncate(mirror);
    if poison then Negate(bits) else bits
  }

  /** PtrCompression::Decompress: the 32-bit value, zero-extended. */
  function Decompress(poison: bool, reference: u32): (p: nat)
    ensures p < TWO32
    ensures p == 0 <==> reference == 0
  {
    if poison then Negate(reference) else reference
  }

  /** Every 32-bit pointer survives compression, in both modes. */
  lemma RoundTrip(poison: bool, p: u32)
    ensures Decompress(poison, Compress(poison, p)) == p
  {
    if poison {
      NegateInvolutive(p);
    }
  }

  lemma NegateInvolutive(x: u32)
    ensures Negate(Negate(x)) == x
  {
    if x != 0 {
      assert Negate(x) == TWO32 - x;
    }
  }

  /** A wider pointer comes back as its low 32 bits. */
  lemma RoundTripTruncates(poison: bool, p: nat)
    ensures Decompress(poison, Compress(poison, p)) == p % TWO32
  {
    RoundTrip(poison, Truncate(p));
  }

  /** Compressing is injective on 32-bit pointers (distinct objects keep
      distinct references), in both modes. */
  lemma CompressInjective(poison: bool, p: u32, q: u32)
    requires Compress(poison, p) == Compress(poison, q)
    ensures p == q
  {
    RoundTrip(poison, p);
    RoundTrip(poison, q);
  }

  /** ObjectReference<kPoisonReferences, MirrorType>: one 32-bit field. */
  class ObjectRef {
    const poison: bool
    var reference: u32

    /** The protected default constructor: a null reference. */
    constructor Null(poison: bool)
      ensures this.poison == poison && reference == 0
      ensures IsNull()
    {
      this.poison := poison;
      reference := 0;
    }

    /** FromMirrorPtr / the explicit constructor. */
    constructor FromMirrorPtr(poison: bool, mirror: nat)
      ensures this.poison == poison && reference == Compress(poison, mirror)
      ensures AsMirrorPtr() == mirror % TWO32
    {
      this.poison := poison;
      reference := Compress(poison, mirror);
      new;
      RoundTripTruncates(poison, mirror);
    }

    function AsMirrorPtr(): (p: nat)
      reads this
      ensures p == 0 <==> IsNull()
    {
      Decompress(poison, reference)
    }

    predicate IsNull()
      reads this
    {
      reference == 0
    }

    method Assign(mirror: nat)
      modifies this
      ensures reference == Compress(poison, mirror)
      ensures AsMirrorPtr() == mirror % TWO32
    {
      reference := Compress(poison, mirror);
      RoundTripTruncates(poison, mirror);
    }

    method Clear()
      modifies this
      ensures reference == 0 && IsNull() && AsMirrorPtr() == 0
    {
      reference := 0;
    }
  }

  /** CompressedReference<MirrorType>: the unpoisoned reference used for
      stack references and GC roots. */
  class CompressedReference {
    var reference: u32

    constructor Null()
      ensures reference == 0
    {
      reference := 0;
    }

    constructor FromMirrorPtr(mirror: nat)
      ensures reference == Compress(false, mirror)
      ensures AsMirrorPtr() == mirror % TWO32
    {
      reference := Compress(false, mirror);
      new;
      RoundTripTruncates(false, mirror);
    }

    /** FromVRegValue stores the virtual-register value untouched. */
    constructor FromVRegValue(vreg: u32)
      ensures reference == vreg && AsVRegValue() == vreg
    {
      reference := vreg;
    }

    function AsVRegValue(): u32
      reads this
    {
      reference
    }

    function AsMirrorPtr(): (p: nat)
      reads this
      ensures p == reference
    {
      Decompress(false, reference)
    }
  }
}
