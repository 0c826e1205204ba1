/** The token estimate shared by chunking and prompt trimming. */
module Tokens {

  function Max(a: int, b: int): int {
    if a >= b then a else b
  }

  function Min(a: int, b: int): int {
    if a <= b then a else b
  }

  /** One token for every four characters, rounded up, and at least one. */
  function EstimateTokens(text: string): nat {
    Max(1, (|text| + 3) / 4)
  }
}
