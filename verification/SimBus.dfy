/** The 32-bit word bus two cores share. Unwritten words read as zero. */
module SimBus {
  import opened Basics

  type Words = map<nat, U32>

  function Read(w: Words, a: nat): U32 { if a in w then w[a] else 0 }

  /** A word is what was last written there, zero before that. */
  lemma ReadsLastWrite(w: Words, a: nat, b: nat, v: U32)
    ensures Read(w[a := v], b) == if b == a then v else Read(w, b)
    ensures Read(map[], b) == 0
  {}

  class Bus {
    var words: Words

    constructor ()
      ensures words == map[]
    {
      words := map[];
    }

    function Peek32(a: nat): (v: U32)
      reads this
      ensures a in words ==> v == words[a]
      ensures a !in words ==> v == 0
    {
      Read(words, a)
    }

    method Poke32(a: nat, v: U32)
      modifies this
      ensures words == old(words)[a := v]
    {
      words := words[a := v];
    }
  }
}
