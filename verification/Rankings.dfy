/** What a recommendation strategy answers. */
module Rankings {
  datatype ScoredItem = ScoredItem(itemId: int, score: real)

  type Ranking = seq<ScoredItem>

  datatype Error = ColdStart | ModelUnavailable | Other(name: string)
}
