/**
 The INSERT writer of pkg/db/export.go: one loop that opens, continues and closes statements as it
 goes, against the statements it is meant to write.
 */
module Batches {
  import opened Export

  const BATCH_SIZE: nat := 100

  const SEMICOLON: string := ";\n"
  const COMMA: string := ",\n"

  // ---------------------------------------------------------------- the statements

  /** The rows in groups of BATCH_SIZE; only the last group may be smaller. */
  function Batches(rows: seq<string>): seq<seq<string>>
    decreases |rows|
  {
    if rows == [] then []
    else if |rows| <= BATCH_SIZE then [rows]
    else [rows[..BATCH_SIZE]] + Batches(rows[BATCH_SIZE..])
  }

  /** Rows with a separator in front of each. */
  function Following(rows: seq<string>): string {
    if rows == [] then "" else ",\n" + rows[0] + Following(rows[1..])
  }

  function Statement(header: string, batch: seq<string>): string
    requires batch != []
  {
    header + batch[0] + Following(batch[1..]) + ";\n"
  }

  predicate NoneEmpty(batches: seq<seq<string>>) {
    forall i :: 0 <= i < |batches| ==> batches[i] != []
  }

  function Statements(header: string, batches: seq<seq<string>>): string
    requires NoneEmpty(batches)
  {
    if batches == [] then "" else Statement(header, batches[0]) + Statements(header, batches[1..])
  }

  function Flatten(batches: seq<seq<string>>): seq<string> {
    if batches == [] then [] else batches[0] + Flatten(batches[1..])
  }

  /** Every row is in one statement, in order; no statement is empty or too long. */
  lemma {:induction false} BatchesPartition(rows: seq<string>)
    ensures Flatten(Batches(rows)) == rows && NoneEmpty(Batches(rows))
    ensures forall i :: 0 <= i < |Batches(rows)| ==> |Batches(rows)[i]| <= 100
    ensures forall i :: 0 <= i < |Batches(rows)| - 1 ==> |Batches(rows)[i]| == 100
    decreases |rows|
  {
    if |rows| > BATCH_SIZE {
      BatchesPartition(rows[BATCH_SIZE..]);
      assert Batches(rows)[1..] == Batches(rows[BATCH_SIZE..]);
      assert rows == rows[..BATCH_SIZE] + rows[BATCH_SIZE..];
    } else if rows != [] {
      assert Batches(rows)[1..] == [];
      assert rows + [] == rows;
    }
  }

  // ---------------------------------------------------------------- the loop

  /** The semicolon of the statement before, if there is one. */
  function Closing(n: nat): string {
    if n > 0 then SEMICOLON else ""
  }

  /** What the loop writes before row n. */
  function Separator(header: string, n: nat): string {
    if n % BATCH_SIZE == 0 then Closing(n) + header else COMMA
  }

  /** What is still to be written when n rows have been. */
  function Rest(header: string, rows: seq<string>, n: nat): string
    requires n <= |rows|
    decreases |rows| - n
  {
    if n == |rows| then Closing(n)
    else Separator(header, n) + rows[n] + Rest(header, rows, n + 1)
  }

  method WriteSeparator(header: string, n: nat, w: Output)
    modifies w
    ensures w.written == old(w.written) + Separator(header, n)
  {
    if n % BATCH_SIZE == 0 {
      if n > 0 {
        w.Print(SEMICOLON);
      }
      w.Print(header);
    } else {
      w.Print(COMMA);
    }
  }

  lemma RestShrinks(written: string, header: string, rows: seq<string>, n: nat)
    requires n < |rows|
    ensures written + Rest(header, rows, n) == written + Separator(header, n) + rows[n] + Rest(header, rows, n + 1)
  {
  }

  method WriteRows(header: string, rows: seq<string>, w: Output)
    modifies w
    ensures w.written == old(w.written) + Rest(header, rows, 0)
  {
    var n := 0;
    while n < |rows|
      invariant 0 <= n <= |rows|
      invariant w.written + Rest(header, rows, n) == old(w.written) + Rest(header, rows, 0)
    {
      RestShrinks(w.written, header, rows, n);
      WriteSeparator(header, n, w);
      w.Print(rows[n]);
      n := n + 1;
    }
    if n > 0 {
      w.Print(SEMICOLON);
    }
  }

  /** Up to the end of the batch, the loop writes rows behind commas. */
  lemma {:induction false} WithinBatch(header: string, rows: seq<string>, n: nat, end: nat)
    requires n <= end <= |rows| && (forall k :: n <= k < end ==> k % BATCH_SIZE != 0)
    ensures Rest(header, rows, n) == Following(rows[n..end]) + Rest(header, rows, end)
    decreases end - n
  {
    if n == end {
      assert rows[n..end] == [];
    } else {
      WithinBatch(header, rows, n + 1, end);
      assert rows[n..end][1..] == rows[n + 1..end];
      assert n % BATCH_SIZE != 0;
    }
  }

  lemma NoMultipleBetween(n: nat, k: nat)
    requires n % BATCH_SIZE == 0 && n < k < n + BATCH_SIZE
    ensures k % BATCH_SIZE != 0
  {
  }

  lemma StatementShape(header: string, row: string, following: string, front: string, behind: string)
    ensures (front + header) + row + (following + (SEMICOLON + behind)) ==
            front + ((header + row + following + ";\n") + behind)
  {
  }

  /** From the first row of a batch up to its last, and what follows it. */
  lemma OneBatch(header: string, rows: seq<string>, n: nat, end: nat, behind: string)
    requires n < end <= |rows| && n % BATCH_SIZE == 0 && end <= n + BATCH_SIZE
    requires Rest(header, rows, end) == SEMICOLON + behind
    ensures Rest(header, rows, n) == Closing(n) + (Statement(header, rows[n..end]) + behind)
  {
    forall k | n + 1 <= k < end ensures k % BATCH_SIZE != 0 {
      NoMultipleBetween(n, k);
    }
    WithinBatch(header, rows, n + 1, end);
    var following := Following(rows[n + 1..end]);
    assert rows[n..end][0] == rows[n] && rows[n..end][1..] == rows[n + 1..end];
    StatementShape(header, rows[n], following, Closing(n), behind);
  }

  /** Everything from a batch's first row on, the end of the batch before it included. */
  lemma {:induction false} FromBatch(header: string, rows: seq<string>, n: nat)
    requires n <= |rows| && n % BATCH_SIZE == 0 && NoneEmpty(Batches(rows[n..]))
    ensures Rest(header, rows, n) == Closing(n) + Statements(header, Batches(rows[n..]))
    decreases |rows| - n
  {
    var batches := Batches(rows[n..]);
    if n == |rows| {
      assert Closing(n) + "" == Closing(n);
    } else if |rows| - n <= BATCH_SIZE {
      assert rows[n..|rows|] == rows[n..];
      assert SEMICOLON + "" == SEMICOLON;
      OneBatch(header, rows, n, |rows|, "");
      assert batches[1..] == [];
    } else {
      var end := n + BATCH_SIZE;
      assert rows[n..][BATCH_SIZE..] == rows[end..] && rows[n..][..BATCH_SIZE] == rows[n..end];
      assert batches[1..] == Batches(rows[end..]);
      FromBatch(header, rows, end);
      OneBatch(header, rows, n, end, Statements(header, batches[1..]));
    }
  }

  /** The loop writes exactly the statements of the batches. */
  lemma LoopWritesStatements(header: string, rows: seq<string>)
    ensures NoneEmpty(Batches(rows)) && Rest(header, rows, 0) == Statements(header, Batches(rows))
  {
    BatchesPartition(rows);
    assert rows[0..] == rows;
    FromBatch(header, rows, 0);
    assert Closing(0) + Statements(header, Batches(rows)) == Statements(header, Batches(rows));
  }
}
