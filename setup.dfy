/** The grid side chosen at start-up from the optional size argument. */
module Setup {
  import opened Life
  import opened Patterns

  datatype Option<T> = None | Some(value: T)

  /** Side of the grid when no usable size is requested. */
  const DefaultSize := 100

  /** The requested side when one is given and it is above 8; otherwise
      the default. `None` stands for an absent (or empty) argument; parsing
      the argument text is not modelled. */
  function GridSize(requested: Option<int>): (n: int)
    ensures n > 8
    ensures requested.Some? && requested.value > 8 ==> n == requested.value
    ensures !(requested.Some? && requested.value > 8) ==> n == DefaultSize
  {
    if requested.Some? && requested.value > 8 then requested.value else DefaultSize
  }

  /** Every side the start-up accepts leaves room, on the empty N×N grid
      it starts from, for a glider or a block at (1, 1), where the start-up
      places them. */
  lemma SmallPatternsFit(requested: Option<int>)
    ensures var n := GridSize(requested);
      Fits(Zeros(n, n), Glider, 1, 1) && Fits(Zeros(n, n), Block, 1, 1)
  {
    var n := GridSize(requested);
    PatternsTwoValued();
    assert Width(Zeros(n, n)) == n;
  }

  /** The start-up accepts sides 9 to 71, yet on such an empty grid the
      gun's fixed window (rows 8 to 16, columns 34 to 71) does not fit, so
      seeding the gun fails there. */
  lemma GunNeedsWideGrid(m: int)
    requires 8 < m < 34 + GunWidth
    ensures GridSize(Some(m)) == m
    ensures !Fits(Zeros(m, m), GunPattern(), 8, 34)
  {
    assert Width(Zeros(m, m)) == m;
  }
}
