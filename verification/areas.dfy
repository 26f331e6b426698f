/** The area identifiers shared by every step of a publication. */
module Areas {

  /** The area that stands for the whole country; every other area is a department code. */
  const NationalArea := "nat"
}
