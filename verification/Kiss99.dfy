/** The KISS99 generator (libcrypto/kiss99.hpp). */
module Kiss {
  import opened Words

  datatype KissState = KissState(z: word, w: word, jsr: word, jcong: word)

  /** Multiply with carry: the low half times `m` plus the high half. */
  function Mwc(m: word, x: word): word {
    (m * (x % 0x1_0000) + x / 0x1_0000) % M32
  }

  function Lcg(jcong: word): word {
    (69069 * jcong + 1234567) % M32
  }

  function Xorshift(jsr: word): word {
    var a := Xor32(jsr, Shl32(jsr, 17));
    var b := Xor32(a, Shr32(a, 13));
    Xor32(b, Shl32(b, 5))
  }

  function Combine(z: word, w: word, jsr: word, jcong: word): word {
    Add32(Xor32(Add32(Shl32(z, 16), w), jcong), jsr)
  }

  /** The generator after one call. */
  function Step(k: KissState): KissState {
    KissState(Mwc(36969, k.z), Mwc(18000, k.w), Xorshift(k.jsr), Lcg(k.jcong))
  }

  /** The number returned by the call that left the generator in state `k`. */
  function Output(k: KissState): word {
    Combine(k.z, k.w, k.jsr, k.jcong)
  }

  class Kiss99 {
    var z: word
    var w: word
    var jsr: word
    var jcong: word

    ghost function State(): KissState
      reads this
    {
      KissState(z, w, jsr, jcong)
    }

    constructor (k: KissState)
      ensures State() == k
    {
      z, w, jsr, jcong := k.z, k.w, k.jsr, k.jcong;
    }

    /** `operator()`: advances the four fields and mixes them into the result. */
    method Next() returns (r: word)
      modifies this
      ensures State() == Step(old(State()))
      ensures r == Output(State())
    {
      hide Xor32, Shl32, Shr32, Add32;
      z := (36969 * (z % 0x1_0000) + z / 0x1_0000) % M32;
      w := (18000 * (w % 0x1_0000) + w / 0x1_0000) % M32;
      jcong := (69069 * jcong + 1234567) % M32;
      jsr := Xor32(jsr, Shl32(jsr, 17));
      jsr := Xor32(jsr, Shr32(jsr, 13));
      jsr := Xor32(jsr, Shl32(jsr, 5));
      r := Add32(Xor32(Add32(Shl32(z, 16), w), jcong), jsr);
    }
  }
}
