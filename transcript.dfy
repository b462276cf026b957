/** The shape of one transcript message sent by the speech-to-text service,
    as far as the keyword spotter reads it. A field the message may lack is
    an `Option`; `None` means the key is absent. */
module Transcript {
  import opened Wrappers

  /** One recognised word: `word`, `start` and `confidence`. The start time is
      a float in the message; it is only ever compared for equality, so a
      `real` stands for it. */
  datatype Word = Word(word: Option<string>, start: Option<real>, confidence: Option<real>)

  /** One recognition hypothesis; `words` may be absent. */
  datatype Alternative = Alternative(words: Option<seq<Word>>)

  datatype Channel = Channel(alternatives: Option<seq<Alternative>>)

  /** A message: `is_final` (an absent key reads as false) and an optional `channel`. */
  datatype Message = Message(isFinal: bool, channel: Option<Channel>)
}
