/** The two shared result shapes: an optional value, and a value or the reason it was refused. */
module Opciones {
  datatype Opcion<+T> = Nada | Algo(valor: T)

  datatype Resultado<+T, +E> = Bien(valor: T) | Mal(error: E)
}
