/** The crate's message generator: a 64-bit xorshift state, seeded from the
    clock the first time it is used, from which bounded bytes are drawn to
    pick a defeat or victory message. The clock reading is a parameter: the
    number of nanoseconds since the Unix epoch at the moment of the draw. */
module MessageRandom {
  /** The seed for an unset state, `1 + nanos`, wrapping around. */
  function Seed(nanos: bv64): (s: bv64)
    ensures s == 0 <==> nanos == 0xFFFF_FFFF_FFFF_FFFF
  {
    1 + nanos
  }

  /** The three xorshift stages. */
  function ShiftLeft13(x: bv64): bv64 { x ^ (x << 13) }
  function ShiftRight7(x: bv64): bv64 { x ^ (x >> 7) }
  function ShiftLeft17(x: bv64): bv64 { x ^ (x << 17) }

  /** One xorshift step: shifts 13 left, 7 right, 17 left. */
  function XorShift(s: bv64): bv64 {
    ShiftLeft17(ShiftRight7(ShiftLeft13(s)))
  }

  /** Each stage maps only zero to zero. */
  lemma ShiftLeft13Zero(x: bv64)
    ensures ShiftLeft13(x) == 0 <==> x == 0
  {
  }

  lemma ShiftRight7Zero(x: bv64)
    ensures ShiftRight7(x) == 0 <==> x == 0
  {
  }

  lemma ShiftLeft17Zero(x: bv64)
    ensures ShiftLeft17(x) == 0 <==> x == 0
  {
  }

  /** So the whole step maps only zero to zero: a seeded generator never
      falls back to the unset state. */
  lemma XorShiftZero(s: bv64)
    ensures XorShift(s) == 0 <==> s == 0
  {
    ShiftLeft13Zero(s);
    ShiftRight7Zero(ShiftLeft13(s));
    ShiftLeft17Zero(ShiftRight7(ShiftLeft13(s)));
  }

  /** The state after one draw from state `s`. */
  function Next(s: bv64, nanos: bv64): bv64 {
    XorShift(if s == 0 then Seed(nanos) else s)
  }

  /** The byte a draw returns: the top 8 bits of the new state. */
  function Top8(s: bv64): (r: nat)
    ensures r < 256
  {
    (s >> 56) as nat
  }

  /** The state after `k` draws, every clock reading being `nanos`. */
  function Iterate(s: bv64, k: nat, nanos: bv64): bv64 {
    if k == 0 then s else Next(Iterate(s, k - 1, nanos), nanos)
  }

  /** Once the state is set it stays set, so the clock is read at most once:
      after any number of draws from a set state, or after the first draw
      from an unset one whose seed did not wrap to zero. */
  lemma {:induction false} IterateStaysSet(s: bv64, k: nat, nanos: bv64)
    requires s != 0 || Seed(nanos) != 0
    requires k > 0 || s != 0
    ensures Iterate(s, k, nanos) != 0
  {
    if k > 0 {
      var p := Iterate(s, k - 1, nanos);
      if k - 1 > 0 || s != 0 {
        IterateStaysSet(s, k - 1, nanos);
      }
      XorShiftZero(if p == 0 then Seed(nanos) else p);
    }
  }

  /** The number of draws `random_u8(max)` makes. */
  function Draws(max: nat): nat {
    if max == 255 then 1 else 11
  }

  /** `random_u8(max)`: a single draw for `max == 255`; otherwise eleven
      draws, the last reduced modulo `max + 1`. */
  function RandomByte(s: bv64, max: nat, nanos: bv64): (r: nat)
    requires max < 256
    ensures r <= max
    ensures max == 255 ==> r == Top8(Iterate(s, 1, nanos))
  {
    var last := Top8(Iterate(s, Draws(max), nanos));
    if max == 255 then last else last % (max + 1)
  }

  /** `defeat_message`, given the byte drawn with `max = 14`. */
  function DefeatLine(k: nat): string {
    match k
    case 0 => "Game over."
    case 1 => "I am Error."
    case 2 => "Insert coin to continue."
    case 3 => "Now let's all agree to never be creative again."
    case 4 => "Oh dear, you are dead!"
    case 5 => "Press F to pay respects."
    case 6 => "Surprise! You're dead!"
    case 7 => "Task failed successfully."
    case 8 => "This is not your grave, but you are welcome in it."
    case 9 => "To be continued..."
    case 10 => "What a horrible night to have a curse."
    case 11 => "You cannot give up just yet."
    case 12 => "You have died of dysentery."
    case 13 => "You lost the game."
    case _ => "You've met with a terrible fate, haven't you?"
  }

  /** `victory_message`, given the byte drawn with `max = 7`. */
  function VictoryLine(k: nat): string {
    match k
    case 0 => "A winner is you!"
    case 1 => "Bird up!"
    case 2 => "Congraturation, this story is happy end!"
    case 3 => "Flawless victory."
    case 4 => "Hey, that's pretty good!"
    case 5 => "Nice work, bone daddy."
    case 6 => "That's Numberwang!"
    case _ => "That was totes yeet, yo!"
  }

  /** The generator's state, `STATE`; zero means not yet seeded. */
  class Generator {
    var state: bv64

    constructor()
      ensures state == 0
    {
      state := 0;
    }

    /** `get_random`. */
    method GetRandom(nanos: bv64) returns (r: nat)
      modifies this
      ensures state == Next(old(state), nanos) && r == Top8(state)
    {
      var s := state;
      if s == 0 {
        s := Seed(nanos);
      }
      s := ShiftLeft13(s);
      s := ShiftRight7(s);
      s := ShiftLeft17(s);
      state := s;
      r := Top8(s);
    }

    /** `random_u8`. */
    method RandomU8(max: nat, nanos: bv64) returns (r: nat)
      requires max < 256
      modifies this
      ensures state == Iterate(old(state), Draws(max), nanos)
      ensures r == RandomByte(old(state), max, nanos)
    {
      if max == 255 {
        r := GetRandom(nanos);
        return;
      }
      var attempts := 0;
      while true
        invariant 0 <= attempts <= 10
        invariant state == Iterate(old(state), attempts, nanos)
        decreases 10 - attempts
      {
        var val := GetRandom(nanos);
        attempts := attempts + 1;
        assert state == Iterate(old(state), attempts, nanos);
        if attempts > 10 {
          assert attempts == Draws(max);
          return val % (max + 1);
        }
      }
    }

    /** `defeat_message`. */
    method DefeatMessage(nanos: bv64) returns (m: string)
      modifies this
      ensures state == Iterate(old(state), 11, nanos)
      ensures m == DefeatLine(RandomByte(old(state), 14, nanos))
    {
      var k := RandomU8(14, nanos);
      m := DefeatLine(k);
    }

    /** `victory_message`. */
    method VictoryMessage(nanos: bv64) returns (m: string)
      modifies this
      ensures state == Iterate(old(state), 11, nanos)
      ensures m == VictoryLine(RandomByte(old(state), 7, nanos))
    {
      var k := RandomU8(7, nanos);
      m := VictoryLine(k);
    }
  }
}
