/** Shard names of the form mcc-<manager>-<number>, the number padded to three digits. */
module ShardNames {
  import opened Decimals

  function Prefix(manager: string): string { "mcc-" + manager + "-" }

  function NumberedShard(manager: string, n: nat): string { Prefix(manager) + PadLeft(Decimal(n), 3) }

  /** The number of a shard named prefix + digits, 0 for any other name. */
  function ShardNumber(manager: string, name: string): nat {
    var p := Prefix(manager);
    if p <= name && |p| < |name| && AllDigits(name[|p|..]) then ReadDigits(name[|p|..]) else 0
  }

  lemma NumberedShardNumber(manager: string, n: nat)
    ensures ShardNumber(manager, NumberedShard(manager, n)) == n && Prefix(manager) <= NumberedShard(manager, n)
  {
    var p, digits := Prefix(manager), PadLeft(Decimal(n), 3);
    assert (p + digits)[|p|..] == digits;
    ReadPadded(Decimal(n), 3);
    ReadDecimal(n);
  }
}
