/** The `config` command's table (ConfigCommand.swift): fixed-width columns
    built from string truncation and left justification. */
module ConfigCommand {
  import opened Optional
  import opened Text
  import FancyConfig

  /** The character appended to a truncated string. */
  const Ellipsis: char := '\U{2026}'

  /** `s` cut down to `n` characters, its last one replaced by an ellipsis, when
      it is longer than `n`. The Swift code traps when it must cut to fewer than
      one character, hence the precondition. */
  function Truncate(s: string, n: int): (r: string)
    requires n >= 1 || |s| <= n
    ensures |s| <= n ==> r == s
    ensures |s| > n ==> |r| == n && r[..n - 1] == s[..n - 1] && r[n - 1] == Ellipsis
    ensures |r| <= n
  {
    if |s| > n then s[..n - 1] + [Ellipsis] else s
  }

  /** Truncating twice to the same width is truncating once. */
  lemma TruncateIdempotent(s: string, n: int)
    requires n >= 1 || |s| <= n
    ensures Truncate(Truncate(s, n), n) == Truncate(s, n)
  {
  }

  /** `s` padded with spaces, or truncated, to exactly `width` characters. */
  function Ljust(s: string, width: int): (r: string)
    requires width >= 1 || |s| == width
    ensures |r| == width
    ensures |s| == width ==> r == s
    ensures |s| <= width ==> r[..|s|] == s && forall i :: |s| <= i < width ==> r[i] == ' '
    ensures |s| > width ==> r == Truncate(s, width)
  {
    if |s| >= width then Truncate(s, width)
    else s + Repeat(' ', width - |s|)
  }

  /** The column separator. */
  const Spacer: string := "  "

  /** Column widths; the value column takes what the others leave of 80. */
  const MaxLen: int := 80
  const MaxKeyLen: int := 23
  const MaxEnvLen: int := 20
  const MaxSrcLen: int := 8

  function MaxValLen(): (n: int)
    ensures n == 23
    ensures MaxKeyLen + MaxEnvLen + n + MaxSrcLen + 3 * |Spacer| == MaxLen
  {
    MaxLen - (MaxKeyLen + MaxEnvLen + MaxSrcLen) - |Spacer| * 3
  }

  /** Four cells, each justified to its column's width, joined by spacers. */
  function TableRow(key: string, env: string, val: string, src: string): (r: string)
    ensures |r| == MaxLen
    ensures r[..MaxKeyLen] == Ljust(key, MaxKeyLen)
    ensures r[MaxKeyLen..MaxKeyLen + 2] == Spacer
    ensures r[MaxKeyLen + 2..MaxKeyLen + 2 + MaxEnvLen] == Ljust(env, MaxEnvLen)
    ensures r[45..47] == Spacer
    ensures r[47..70] == Ljust(val, MaxValLen())
    ensures r[70..72] == Spacer
    ensures r[MaxLen - MaxSrcLen..] == Ljust(src, MaxSrcLen)
  {
    var cells := [Ljust(key, MaxKeyLen), Ljust(env, MaxEnvLen), Ljust(val, MaxValLen()), Ljust(src, MaxSrcLen)];
    JoinCons(Spacer, cells[2], [cells[3]]);
    JoinCons(Spacer, cells[1], cells[2..]);
    assert cells[1..] == [cells[1]] + cells[2..];
    assert cells[2..] == [cells[2]] + [cells[3]];
    JoinCons(Spacer, cells[0], cells[1..]);
    assert cells == [cells[0]] + cells[1..];
    var r := Join(Spacer, cells);
    assert r == cells[0] + Spacer + cells[1] + Spacer + cells[2] + Spacer + cells[3];
    r
  }

  /** The header row. */
  function HeaderRow(): string {
    TableRow("Config Key", "Environment Variable", "Configured Value", "Source")
  }

  /** The row of dashes under the header. */
  function SeparatorRow(): string {
    Join(Spacer, [Repeat('-', MaxKeyLen), Repeat('-', MaxEnvLen), Repeat('-', MaxValLen()), Repeat('-', MaxSrcLen)])
  }

  /** Both fixed rows are exactly 80 characters; the header's labels fit their
      columns, so they are not truncated. */
  lemma FixedRowsWidth()
    ensures |HeaderRow()| == 80
    ensures |SeparatorRow()| == 80
    ensures forall i :: 0 <= i < 80 ==> SeparatorRow()[i] in {'-', ' '}
    ensures HeaderRow()[..10] == "Config Key"
  {
    var dashes := [Repeat('-', MaxKeyLen), Repeat('-', MaxEnvLen), Repeat('-', MaxValLen()), Repeat('-', MaxSrcLen)];
    JoinCons(Spacer, dashes[2], [dashes[3]]);
    JoinCons(Spacer, dashes[1], dashes[2..]);
    assert dashes[1..] == [dashes[1]] + dashes[2..];
    assert dashes[2..] == [dashes[2]] + [dashes[3]];
    JoinCons(Spacer, dashes[0], dashes[1..]);
    assert dashes == [dashes[0]] + dashes[1..];
    var r := SeparatorRow();
    assert r == dashes[0] + Spacer + dashes[1] + Spacer + dashes[2] + Spacer + dashes[3];
    var key := Ljust("Config Key", MaxKeyLen);
    assert HeaderRow()[..MaxKeyLen] == key;
    assert key[..10] == "Config Key";
    assert HeaderRow()[..10] == key[..10];
  }

  /** One option's row: qualified key, environment variable (blank when there
      is none), current value and its source. Every row is 80 characters and
      starts with the justified key. */
  function OptionRow(opt: FancyConfig.ConfigOption, ctx: FancyConfig.Context, showReal: real -> string): (r: string)
    ensures |r| == MaxLen
    ensures r[..MaxKeyLen] == Ljust(FancyConfig.QualifiedKey(opt, ctx.section), MaxKeyLen)
    ensures r[23..25] == Spacer && r[45..47] == Spacer && r[70..72] == Spacer
    ensures r[25..45] == Ljust(FancyConfig.EnvironmentVariable(opt, ctx.namespace).GetOr(""), MaxEnvLen)
    ensures r[47..70] == Ljust(FancyConfig.Description(FancyConfig.GetValue(opt, ctx), showReal), MaxValLen())
    ensures r[MaxLen - MaxSrcLen..] == Ljust(FancyConfig.SourceDescription(FancyConfig.GetSource(opt, ctx)), MaxSrcLen)
  {
    TableRow(
      FancyConfig.QualifiedKey(opt, ctx.section),
      FancyConfig.EnvironmentVariable(opt, ctx.namespace).GetOr(""),
      FancyConfig.Description(FancyConfig.GetValue(opt, ctx), showReal),
      FancyConfig.SourceDescription(FancyConfig.GetSource(opt, ctx)))
  }

  /** Source labels are never truncated: the column shows the label itself
      followed by spaces. */
  lemma SourceColumnShowsLabel(src: FancyConfig.Source)
    ensures Ljust(FancyConfig.SourceDescription(src), MaxSrcLen)[..|FancyConfig.SourceDescription(src)|]
      == FancyConfig.SourceDescription(src)
  {
  }
}
