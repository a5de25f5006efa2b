/** The slowly rising energy threshold of the background noise estimator, kept in two words. */
module BackgroundNoise {

  const THRESHOLD_INCREMENT: int := 229
  const WORD: int := 0x1_0000
  const ROUNDING: int := 524288
  const INT32_MAX: int := 0x7FFF_FFFF

  type Int32 = x: int | -0x8000_0000 <= x <= INT32_MAX

  /** The threshold as one number in units of 1/65536. */
  function Threshold(high: int, low: int): int {
    high * WORD + low
  }

  /** The threshold after one step: the increment of 229/65536 of itself, rounded down. */
  function Raised(t: int): int {
    t + THRESHOLD_INCREMENT * t / WORD
  }

  /** A part that is a multiple of the word comes out of the rounding whole. */
  lemma RaisedSplit(high: nat, low: nat)
    ensures Raised(Threshold(high, low))
            == Threshold(high, low) + THRESHOLD_INCREMENT * high + THRESHOLD_INCREMENT * low / WORD
  {
    var a, b := THRESHOLD_INCREMENT * high, THRESHOLD_INCREMENT * low;
    assert THRESHOLD_INCREMENT * Threshold(high, low) == a * WORD + b;
    assert (a * WORD + b) / WORD == a + b / WORD;
  }

  /** The low 16 bits of a word are its two bytes. */
  lemma Bytes(high: nat)
    ensures high == high / WORD * WORD + high / 256 % 256 * 256 + high % 256
  {
  }

  /** The increment is 229/65536 of the threshold, rounded down. */
  lemma RaisedBy(t: int)
    ensures 0 <= 229 * t - 0x1_0000 * (Raised(t) - t) < 0x1_0000
  {
  }

  /** The floor is a part in 2^20 of the energy, rounded to the nearest. */
  lemma FloorIs(energy: nat)
    ensures -0x8_0000 <= energy - 0x10_0000 * Floor60dB(energy) < 0x8_0000
  {
  }

  /** The threshold never falls, and rises as soon as it reaches 287/65536. */
  lemma RaisedRises(t: nat)
    ensures Raised(t) >= t
    ensures t >= 287 ==> Raised(t) > t
  {
  }

  /** The two words represent one number only. */
  lemma WordsAreUnique(high: int, low: int, high': int, low': int)
    requires 0 <= low < WORD && 0 <= low' < WORD && Threshold(high, low) == Threshold(high', low')
    ensures high == high' && low == low'
  {
  }

  /** The level 60 dB below an energy, rounded. */
  function Floor60dB(energy: nat): int {
    (energy + ROUNDING) / 0x10_0000
  }

  class ChannelParameters {
    var energyUpdateThreshold: Int32
    var lowEnergyUpdateThreshold: Int32
    var maxEnergy: Int32

    ghost predicate Valid()
      reads this
    {
      0 <= energyUpdateThreshold && 0 <= lowEnergyUpdateThreshold < WORD && 0 <= maxEnergy
    }

    constructor (energyUpdateThreshold: Int32)
      requires energyUpdateThreshold >= 0
      ensures Valid() && this.energyUpdateThreshold == energyUpdateThreshold && lowEnergyUpdateThreshold == 0
              && maxEnergy == 0
    {
      this.energyUpdateThreshold := energyUpdateThreshold;
      lowEnergyUpdateThreshold := 0;
      maxEnergy := 0;
    }

    /** The byte-split update computes the increment of the whole number exactly, within 32 bits. */
    method RaiseThreshold()
      requires Valid()
      requires Raised(Threshold(energyUpdateThreshold, lowEnergyUpdateThreshold)) < Threshold(INT32_MAX + 1, 0)
      modifies this`energyUpdateThreshold, this`lowEnergyUpdateThreshold
      ensures Valid()
      ensures Threshold(energyUpdateThreshold, lowEnergyUpdateThreshold)
           == Raised(old(Threshold(energyUpdateThreshold, lowEnergyUpdateThreshold)))
      ensures energyUpdateThreshold == Raised(old(Threshold(energyUpdateThreshold, lowEnergyUpdateThreshold))) / WORD
      ensures lowEnergyUpdateThreshold == Raised(old(Threshold(energyUpdateThreshold, lowEnergyUpdateThreshold))) % WORD
    {
      ghost var high, low := energyUpdateThreshold, lowEnergyUpdateThreshold;
      ghost var raised := Raised(Threshold(high, low));
      RaisedSplit(high, low);
      Bytes(high);
      hide Raised;
      var tempEnergy: Int32 := THRESHOLD_INCREMENT * lowEnergyUpdateThreshold / WORD;
      tempEnergy := tempEnergy + THRESHOLD_INCREMENT * (energyUpdateThreshold % 256);
      tempEnergy := tempEnergy + THRESHOLD_INCREMENT * (energyUpdateThreshold / 256 % 256) * 256;
      lowEnergyUpdateThreshold := lowEnergyUpdateThreshold + tempEnergy;
      energyUpdateThreshold := energyUpdateThreshold + THRESHOLD_INCREMENT * (energyUpdateThreshold / WORD);
      energyUpdateThreshold := energyUpdateThreshold + lowEnergyUpdateThreshold / WORD;
      lowEnergyUpdateThreshold := lowEnergyUpdateThreshold % WORD;
      WordsAreUnique(energyUpdateThreshold, lowEnergyUpdateThreshold, raised / WORD, raised % WORD);
    }

    /** Raises the threshold, and then keeps it within 60 dB of the slowly sinking largest energy. */
    method IncrementEnergyThreshold(sampleEnergy: Int32)
      requires Valid() && sampleEnergy + ROUNDING <= INT32_MAX
      requires Raised(Threshold(energyUpdateThreshold, lowEnergyUpdateThreshold)) < Threshold(INT32_MAX + 1, 0)
      modifies this
      ensures Valid()
      ensures maxEnergy >= sampleEnergy && maxEnergy >= old(maxEnergy) - old(maxEnergy) / 1024
      ensures maxEnergy == sampleEnergy || maxEnergy == old(maxEnergy) - old(maxEnergy) / 1024
      ensures energyUpdateThreshold >= Floor60dB(maxEnergy)
      ensures var raised := Raised(old(Threshold(energyUpdateThreshold, lowEnergyUpdateThreshold)));
              if raised / WORD >= Floor60dB(maxEnergy)
              then Threshold(energyUpdateThreshold, lowEnergyUpdateThreshold) == raised
              else energyUpdateThreshold == Floor60dB(maxEnergy) && lowEnergyUpdateThreshold == raised % WORD
    {
      RaiseThreshold();
      maxEnergy := maxEnergy - maxEnergy / 1024;
      if sampleEnergy > maxEnergy {
        maxEnergy := sampleEnergy;
      }
      var threshold: Int32 := (maxEnergy + ROUNDING) / 0x10_0000;
      if threshold > energyUpdateThreshold {
        energyUpdateThreshold := threshold;
      }
    }
  }
}
