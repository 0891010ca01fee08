/** How accounts are named. */
module Names {
  type Acct = string
}
