/** The history that the string-prompt dialects receive: a list of finished
    exchanges, each the user's query and the model's answer (a Python
    `(query, response)` pair). */
module Conversation {

  datatype Exchange = Exchange(query: string, answer: string)
}
