/** What the resolver observes of a certificate chain: its sequence number and its kind. */
module Certificate {

  type SequenceBound = n: nat | 16384 <= n <= 0xFFFF_FFFF witness 16384

  /** The largest certificate sequence. Its value belongs to another library: nothing here
      depends on it beyond the range of its type. */
  const SEQUENCE_MAX: SequenceBound

  type Sequence = n: nat | n <= SEQUENCE_MAX

  datatype ChainKey = ChainKey(sequence: Sequence, primary: bool)
}
