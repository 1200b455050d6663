// The state of a player. The declaration order matters: Win is the first
// member, so it is the value a C# field of this enum holds until assigned.

module PlayerStates {

  datatype PlayerState = Win | Draw | Playing

  /** default(PlayerState): the first declared member. */
  const DefaultState: PlayerState := Win
}
