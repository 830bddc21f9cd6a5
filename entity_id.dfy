/** The entity identifier of `mmolib/src/entity_id.rs`: a wrapper around a u64. */
module EntityIds {
  import opened Fmt

  /** Equality (and hashing) are by value, as the derived `Eq`/`Hash` give. */
  datatype EntityId = EntityId(number: U64)

  function Id(e: EntityId): U64
  {
    e.number
  }

  function NewWithNumber(n: U64): (e: EntityId)
    ensures Id(e) == n
  {
    EntityId(n)
  }

  /** The derived `Default`. */
  function Default(): (e: EntityId)
    ensures Id(e) == 0
  {
    EntityId(0)
  }

  /** `entity<{:X}>`: upper-case hex of the number, no leading zeros. */
  function Display(e: EntityId): string
  {
    "entity<" + UpperHex(e.number) + ">"
  }

  /** Ids and their numbers determine each other. */
  lemma IdDeterminesEntity(a: EntityId, b: EntityId)
    ensures a == b <==> Id(a) == Id(b)
  {
  }

  lemma NewWithNumberOfId(e: EntityId)
    ensures NewWithNumber(Id(e)) == e
  {
  }

  /** The displayed text is a well-formed hex numeral between the brackets. */
  lemma DisplayShape(e: EntityId)
    ensures var s := Display(e);
      |s| >= 9 && s[..7] == "entity<" && s[|s| - 1] == '>'
      && AllDigits(s[7..|s| - 1], 16)
      && DigitsValue(s[7..|s| - 1], 16) == Id(e)
      && (s[7] == '0' <==> Id(e) == 0)
  {
    var s := Display(e);
    assert s[7..|s| - 1] == UpperHex(e.number);
    RadixRoundTrip(e.number, 16);
    RadixNoLeadingZero(e.number, 16);
  }

  /** Two ids print alike only when they are the same id. */
  lemma DisplayInjective(a: EntityId, b: EntityId)
    requires Display(a) == Display(b)
    ensures a == b
  {
    var s := Display(a);
    assert s[7..|s| - 1] == UpperHex(a.number);
    assert Display(b)[7..|s| - 1] == UpperHex(b.number);
    RadixInjective(a.number, b.number, 16);
  }
}
