/**
  Reading several device-configuration fields as one snapshot: the driver reads the generation,
  the fields, and the generation again, until the two generations agree (section 2.5.1 of
  VIRTIO 1.2).  The device may change its configuration between any two accesses.
 */
module ConfigSnapshot {

  const GENERATIONS := 256

  /**
    `config(v)` is the content after `v` changes, `at(n)` the number of changes before the
    driver's `n`-th access.  Every change bumps the 8-bit generation, where there is one.
   */
  datatype Device = Device(config: nat -> seq<nat>, at: nat -> nat, generation: bool)

  function Gen(d: Device, n: nat): nat {
    if d.generation then d.at(n) % GENERATIONS else 0
  }

  ghost predicate Monotone(d: Device) {
    forall n: nat, m: nat | n <= m :: d.at(n) <= d.at(m)
  }

  /** The device stops changing at access `settle`. */
  ghost predicate Settles(d: Device, settle: nat) {
    forall n: nat | settle <= n :: d.at(n) == d.at(settle)
  }

  /** Fewer than 256 changes during one pass over `count` fields. */
  ghost predicate SlowEnough(d: Device, count: nat) {
    forall n: nat, m: nat | n <= m <= n + count + 1 :: d.at(m) < d.at(n) + GENERATIONS
  }

  ghost predicate Large(d: Device, size: nat) {
    forall v: nat :: |d.config(v)| >= size
  }

  /** Bytes of the fields, `bytes` each, from `offset`. */
  function Fields(config: seq<nat>, offset: nat, n: nat, bytes: nat): seq<nat>
    requires offset + n * bytes <= |config|
  {
    config[offset..offset + n * bytes]
  }

  /** A pass whose two generations agree saw one version throughout; without a counter it is always accepted. */
  lemma AcceptedPass(d: Device, n: nat, count: nat)
    requires Monotone(d)
    ensures !d.generation ==> Gen(d, n) == Gen(d, n + count + 1)
    ensures d.generation ==>
              (Gen(d, n) == Gen(d, n + count + 1) <==> (d.at(n + count + 1) - d.at(n)) % GENERATIONS == 0)
    ensures d.generation && SlowEnough(d, count) ==>
              (Gen(d, n) == Gen(d, n + count + 1) <==> forall m | n <= m <= n + count + 1 :: d.at(m) == d.at(n))
  {
    assert d.at(n) <= d.at(n + count + 1);
    if d.generation && SlowEnough(d, count) && Gen(d, n) == Gen(d, n + count + 1) {
      assert d.at(n + count + 1) == d.at(n);
      forall m | n <= m <= n + count + 1
        ensures d.at(m) == d.at(n)
      {
        assert d.at(n) <= d.at(m) <= d.at(n + count + 1);
      }
    }
  }

  /** Once the device has settled a pass is accepted, so the loop ends. */
  lemma SettledPass(d: Device, n: nat, count: nat, settle: nat)
    requires Settles(d, settle) && n >= settle
    ensures Gen(d, n) == Gen(d, n + count + 1)
  {
    assert d.at(n) == d.at(settle) && d.at(n + count + 1) == d.at(settle);
  }

  /** One field, at one version. */
  method GetConfig(config: seq<nat>, offset: nat, buf: array<nat>, at: nat, bytes: nat)
    requires offset + bytes <= |config| && at + bytes <= buf.Length
    modifies buf
    ensures buf[..] == old(buf[..])[..at] + config[offset..offset + bytes] + old(buf[..])[at + bytes..]
  {
    for k := 0 to bytes
      invariant buf[..] == old(buf[..])[..at] + config[offset..offset + k] + old(buf[..])[at + k..]
    {
      buf[at + k] := config[offset + k];
    }
  }

  lemma FieldsStep(config: seq<nat>, offset: nat, i: nat, bytes: nat)
    requires offset + (i + 1) * bytes <= |config|
    ensures (i + 1) * bytes == i * bytes + bytes
    ensures Fields(config, offset, i + 1, bytes)
         == Fields(config, offset, i, bytes) + config[offset + i * bytes..offset + i * bytes + bytes]
  {
    assert (i + 1) * bytes == i * bytes + bytes;
  }

  lemma Scaled(i: nat, n: nat, bytes: nat)
    requires i <= n
    ensures i * bytes <= n * bytes
  {
  }

  /**
    Reads all fields once, the `i`-th at access `first + i`; if none of those saw a change, the buffer
    is that version.
   */
  method ReadPass(d: Device, first: nat, offset: nat, buf: array<nat>, count: nat, bytes: nat)
    requires buf.Length == count * bytes && Large(d, offset + count * bytes)
    modifies buf
    ensures Large(d, offset + count * bytes)
    ensures (forall i | first <= i < first + count :: d.at(i) == d.at(first)) ==>
              buf[..] == Fields(d.config(d.at(first)), offset, count, bytes)
  {
    ghost var same := forall i | first <= i < first + count :: d.at(i) == d.at(first);
    for i := 0 to count
      invariant i * bytes <= count * bytes
      invariant same ==> buf[..i * bytes] == Fields(d.config(d.at(first)), offset, i, bytes)
    {
      Scaled(i + 1, count, bytes);
      FieldsStep(d.config(d.at(first)), offset, i, bytes);
      ghost var before := buf[..i * bytes];
      GetConfig(d.config(d.at(first + i)), offset + bytes * i, buf, i * bytes, bytes);
      assert buf[..i * bytes + bytes] ==
               before + d.config(d.at(first + i))[offset + i * bytes..offset + i * bytes + bytes];
    }
    assert buf[..count * bytes] == buf[..];
  }

  /**
    With a generation counter the buffer ends up equal to the configuration at a single instant,
    `when`, during the call.
   */
  method ReadMany(d: Device, offset: nat, buf: array<nat>, count: nat, bytes: nat, ghost settle: nat)
    returns (ghost when: nat, ghost accesses: nat)
    requires buf.Length == count * bytes && Large(d, offset + count * bytes)
    requires Monotone(d) && Settles(d, settle) && (d.generation ==> SlowEnough(d, count))
    modifies buf
    ensures Large(d, offset + count * bytes)
    ensures d.generation ==>
              && buf[..] == Fields(d.config(when), offset, count, bytes)
              && d.at(0) <= when <= d.at(accesses)
  {
    var gen, n := Gen(d, 0), 1;
    while true
      invariant n >= 1 && gen == Gen(d, n - 1)
      decreases settle + 1 - n
    {
      var older := gen;
      ReadPass(d, n, offset, buf, count, bytes);
      gen := Gen(d, n + count);
      AcceptedPass(d, n - 1, count);
      if n - 1 >= settle {
        SettledPass(d, n - 1, count, settle);
      }
      n := n + count + 1;
      if gen == older {
        break;
      }
    }
    when := d.at(n - count - 2);
    accesses := n - 1;
    assert d.at(0) <= when <= d.at(accesses);
  }

  // ---------------------------------------------------------------- where the promise ends

  /** Two fields; the content is the version number twice; all changes happen between the two reads. */
  function Jump(changes: nat, generation: bool): Device {
    Device(v => [v, v], n => if n < 2 then 0 else changes, generation)
  }

  /** One pass over the two fields of such a device: what it reads, and whether it is accepted. */
  function JumpRead(d: Device): seq<nat>
    requires Large(d, 2)
  {
    [d.config(d.at(1))[0], d.config(d.at(2))[1]]
  }

  /** Between the reads, `changes` updates tear the snapshot unnoticed iff there is no counter or it wrapped exactly. */
  lemma TornUnnoticedIff(changes: nat, generation: bool)
    requires changes > 0
    ensures var d := Jump(changes, generation);
            && Monotone(d) && Settles(d, 2) && Large(d, 2)
            && (forall v: nat :: JumpRead(d) != d.config(v))
            && (Gen(d, 0) == Gen(d, 3) <==> !generation || changes % GENERATIONS == 0)
  {
    var d := Jump(changes, generation);
    assert JumpRead(d) == [0, changes];
    forall v: nat
      ensures JumpRead(d) != d.config(v)
    {
      assert d.config(v) == [v, v];
      assert JumpRead(d)[0] != JumpRead(d)[1];
    }
  }
}
