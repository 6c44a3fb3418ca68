/**
  Descriptor flags.  The models use one boolean per bit; `Word` is the 16-bit word the code
  stores, and the lemmas say that each operation on booleans is the code's operation on words.
 */
module FlagWord {

  datatype Flags = Flags(next: bool, write: bool, indirect: bool, avail: bool, used: bool)

  const NONE := Flags(false, false, false, false, false)
  const NEXT := NONE.(next := true)
  const WRITE := NONE.(write := true)
  const INDIRECT := NONE.(indirect := true)

  const W_NEXT: bv16 := 1
  const W_WRITE: bv16 := 2
  const W_INDIRECT: bv16 := 4
  const W_AVAIL: bv16 := 1 << 7
  const W_USED: bv16 := 1 << 15

  function Word(f: Flags): bv16 {
    (if f.next then W_NEXT else 0) | (if f.write then W_WRITE else 0) | (if f.indirect then W_INDIRECT else 0) |
    (if f.avail then W_AVAIL else 0) | (if f.used then W_USED else 0)
  }

  /** Bitwise or of two flag words. */
  function Or(a: Flags, b: Flags): Flags {
    Flags(a.next || b.next, a.write || b.write, a.indirect || b.indirect, a.avail || b.avail, a.used || b.used)
  }

  /** Exclusive or with the AVAIL and USED bits. */
  function Toggle(f: Flags): Flags {
    f.(avail := !f.avail, used := !f.used)
  }

  /** And with the complement of NEXT. */
  function ClearNext(f: Flags): Flags {
    f.(next := false)
  }

  lemma WordOps(a: Flags, b: Flags)
    ensures Word(Or(a, b)) == Word(a) | Word(b)
    ensures Word(Toggle(a)) == Word(a) ^ (W_AVAIL | W_USED)
    ensures Word(ClearNext(a)) == Word(a) & !W_NEXT
    ensures a.next <==> Word(a) & W_NEXT != 0
    ensures a.write <==> Word(a) & W_WRITE != 0
    ensures a.indirect <==> Word(a) & W_INDIRECT != 0
    ensures a.avail <==> Word(a) & W_AVAIL != 0
    ensures a.used <==> Word(a) & W_USED != 0
  {
  }
}
