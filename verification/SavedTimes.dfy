/** What the manifest keeps of an instant. */
module SavedTimes {

  import opened Arith
  import opened Common
  import opened Decimals
  import Store
  import opened Timestamp

  /** A saved instant is what is read back from its text to the millisecond, or the zero instant
      when that text is refused. */
  lemma SavedAsText(t: I64)
    ensures Store.SavedTime(t) == match ParseOf(TextOf(t, 3)) case Ok(x) => x case Err(_) => 0
  {
    PowersOfTen();
    ParseFormatted(t, 3);
  }

  /** It is the instant itself exactly when that has no fraction of a millisecond, and otherwise
      earlier by less than one, unless that is before the first instant there is. So opening a
      store again can move its watermark back. */
  lemma SavedExactly(t: I64)
    ensures Store.SavedTime(t) == t <==> t % 1_000_000 == 0
    ensures t >= -9_223_372_036_854_000_000 ==> Store.SavedTime(t) <= t < Store.SavedTime(t) + 1_000_000
    ensures t < -9_223_372_036_854_000_000 ==> Store.SavedTime(t) == 0
  {
    DivMod(t, 1_000_000);
  }
}
